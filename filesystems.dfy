/** An in-memory file system: the files with their text and the directories,
    the operations of System.IO the generator calls on them, and the
    directory tree the raw files are copied from. */
module FileSystems {

  import opened Wrappers
  import opened Exceptions
  import opened Paths

  /** The files and their text, and the directories; the root `[]` always
      exists and is not listed. */
  datatype Store = Store(files: map<Path, string>, dirs: set<Path>)

  predicate DirectoryExists(st: Store, d: Path) {
    d == [] || d in st.dirs
  }

  /** A well formed store: nothing is both a file and a directory, and every
      file and directory sits in an existing directory. */
  predicate Valid(st: Store) {
    (forall p :: p in st.files ==> p != [] && p !in st.dirs && DirectoryExists(st, DirectoryName(p)))
    && (forall d :: d in st.dirs ==> d != [] && DirectoryExists(st, DirectoryName(d)))
  }

  /** File.ReadAllText. The exception message of System.IO is not modelled;
      the error carries the path. */
  function ReadOn(st: Store, p: Path): (r: Result<string, Error>)
    ensures r.Success? <==> p in st.files
    ensures r.Success? ==> r.value == st.files[p]
    ensures r.Failure? ==> r.error == FileNotFound(FullName(p))
  {
    if p in st.files then Success(st.files[p]) else Failure(FileNotFound(FullName(p)))
  }

  /** Directory.Delete(p, true): the directory and everything below it. */
  function DeleteTreeOn(st: Store, p: Path): Store {
    Store(map q | q in st.files && !IsWithin(p, q) :: st.files[q],
          set d | d in st.dirs && !IsWithin(p, d))
  }

  /** The directories from the first component down to `p` itself. */
  function Prefixes(p: Path): set<Path> {
    set k | 1 <= k <= |p| :: p[..k]
  }

  /** Directory.CreateDirectory / DirectoryInfo.CreateSubdirectory: creates the
      directory and the missing ones above it, an existing directory is no
      error, a file on the way is. */
  function CreateDirectoryOn(st: Store, p: Path): Result<Store, Error> {
    if exists k :: 1 <= k <= |p| && p[..k] in st.files then Failure(IOFailure(FullName(p)))
    else Success(Store(st.files, st.dirs + Prefixes(p)))
  }

  /** File.Copy(source, dst) without overwriting, given the source's text. */
  function CopyOn(st: Store, dst: Path, text: string): Result<Store, Error> {
    if !DirectoryExists(st, DirectoryName(dst)) then Failure(DirectoryNotFound(FullName(dst)))
    else if dst == [] || dst in st.files || dst in st.dirs then Failure(IOFailure(FullName(dst)))
    else Success(Store(st.files[dst := text], st.dirs))
  }

  /** File.WriteAllText: creates or overwrites the file. */
  function WriteOn(st: Store, p: Path, text: string): Result<Store, Error> {
    if !DirectoryExists(st, DirectoryName(p)) then Failure(DirectoryNotFound(FullName(p)))
    else if p == [] || p in st.dirs then Failure(IOFailure(FullName(p)))
    else Success(Store(st.files[p := text], st.dirs))
  }

  /** A sequence of steps that stops at the first exception: the state it
      leaves and whether it completed. */
  datatype Run = Run(store: Store, outcome: Outcome<Error>)

  /** One step: on failure nothing changed. */
  function Attempt(st: Store, r: Result<Store, Error>): Run {
    match r
    case Success(s) => Run(s, Pass)
    case Failure(e) => Run(st, Fail(e))
  }

  /** Directories recreated by CreateDirectoryOn are no files, so a
      directory of a well formed store has all its prefixes as directories. */
  lemma {:induction false} PrefixesAreDirectories(st: Store, d: Path, k: nat)
    requires Valid(st) && d in st.dirs && 1 <= k <= |d|
    ensures d[..k] in st.dirs
    decreases |d| - k
  {
    if k < |d| {
      PrefixesAreDirectories(st, d, k + 1);
      assert DirectoryName(d[..k + 1]) == d[..k];
    } else {
      assert d[..k] == d;
    }
  }

  /** Deleting and recreating a directory, as the generator does with its
      output directory. */
  function ClearOn(st: Store, p: Path): Result<Store, Error> {
    CreateDirectoryOn(if DirectoryExists(st, p) then DeleteTreeOn(st, p) else st, p)
  }

  /** Clearing as a run: a creation that fails after the deletion leaves the
      deletion done. */
  function ClearRun(st: Store, p: Path): Run {
    var s := if DirectoryExists(st, p) then DeleteTreeOn(st, p) else st;
    Attempt(s, CreateDirectoryOn(s, p))
  }

  /** In a well formed store that cannot happen: a failed clearing deleted
      nothing. */
  lemma ClearRunDeletesOnlyOnSuccess(st: Store, p: Path)
    requires Valid(st)
    ensures ClearRun(st, p) == Attempt(st, ClearOn(st, p))
  {
    var s := if DirectoryExists(st, p) then DeleteTreeOn(st, p) else st;
    if DirectoryExists(st, p) && CreateDirectoryOn(s, p).Failure? {
      var k :| 1 <= k <= |p| && p[..k] in s.files;
      PrefixesAreDirectories(st, p, k);
    }
  }

  /** In a well formed store, clearing fails exactly when a file stands where
      the directory or one above it should be. Afterwards the directory
      exists and holds nothing, whether or not it existed before, and
      everything outside it is as it was. */
  lemma ClearEmptiesDirectory(st: Store, p: Path)
    requires Valid(st)
    ensures ClearOn(st, p).Failure? <==> exists k :: 1 <= k <= |p| && p[..k] in st.files
    ensures ClearOn(st, p).Success? ==>
      var s := ClearOn(st, p).value;
      DirectoryExists(s, p)
      && (forall q :: q in s.files ==> !IsWithin(p, q))
      && (forall d :: d in s.dirs && IsWithin(p, d) ==> d == p)
      && (forall q :: q in st.files && !IsWithin(p, q) ==> q in s.files && s.files[q] == st.files[q])
  {
    if DirectoryExists(st, p) && exists k :: 1 <= k <= |p| && p[..k] in st.files {
      var k :| 1 <= k <= |p| && p[..k] in st.files;
      PrefixesAreDirectories(st, p, k);
    }
    var s1 := if DirectoryExists(st, p) then DeleteTreeOn(st, p) else st;
    if ClearOn(st, p).Success? {
      var s := ClearOn(st, p).value;
      if p != [] {
        assert p[..|p|] == p;
        assert p in Prefixes(p);
      }
      forall d | d in s.dirs && IsWithin(p, d) ensures d == p {
        if d !in s1.dirs {
          var k :| 1 <= k <= |p| && d == p[..k];
          assert |d| == |p|;
        } else if !DirectoryExists(st, p) {
          NoDirectoryBelowMissing(st, p, d);
        }
      }
      if !DirectoryExists(st, p) {
        assert p[..|p|] == p;
        forall q | q in s.files ensures !IsWithin(p, q) {
          ParentOfWithin(st, p, q);
        }
      }
    }
  }

  /** Below a directory that does not exist there is nothing. */
  lemma {:induction false} ParentOfWithin(st: Store, p: Path, q: Path)
    requires Valid(st) && !DirectoryExists(st, p) && q in st.files && p !in st.files
    ensures !IsWithin(p, q)
  {
    if IsWithin(p, q) {
      assert q != p;
      WithinIsLonger(p, q);
      assert DirectoryName(q)[..|p|] == q[..|p|];
      NoDirectoryBelowMissing(st, p, DirectoryName(q));
    }
  }

  lemma {:induction false} NoDirectoryBelowMissing(st: Store, p: Path, d: Path)
    requires Valid(st) && !DirectoryExists(st, p) && p != [] && IsWithin(p, d)
    ensures !DirectoryExists(st, d)
    decreases |d|
  {
    if d in st.dirs {
      if |d| == |p| {
        assert d == p;
      } else {
        assert IsWithin(p, DirectoryName(d));
        NoDirectoryBelowMissing(st, p, DirectoryName(d));
      }
    }
  }

  /** Every operation keeps a well formed store well formed. */
  lemma CreateDirectoryKeepsValid(st: Store, p: Path)
    requires Valid(st)
    ensures CreateDirectoryOn(st, p).Success? ==> Valid(CreateDirectoryOn(st, p).value)
  {
    if CreateDirectoryOn(st, p).Success? {
      var s := CreateDirectoryOn(st, p).value;
      forall d | d in s.dirs ensures d != [] && DirectoryExists(s, DirectoryName(d)) {
        if d in Prefixes(p) {
          var k :| 1 <= k <= |p| && d == p[..k];
          if k > 1 {
            assert DirectoryName(d) == p[..k - 1];
          }
        }
      }
    }
  }

  lemma CopyKeepsValid(st: Store, dst: Path, text: string)
    requires Valid(st)
    ensures CopyOn(st, dst, text).Success? ==> Valid(CopyOn(st, dst, text).value)
  {
  }

  lemma WriteKeepsValid(st: Store, p: Path, text: string)
    requires Valid(st)
    ensures WriteOn(st, p, text).Success? ==> Valid(WriteOn(st, p, text).value)
  {
  }

  lemma DeleteKeepsValid(st: Store, p: Path)
    requires Valid(st)
    ensures Valid(DeleteTreeOn(st, p))
  {
    var s := DeleteTreeOn(st, p);
    forall q | q in s.files ensures DirectoryExists(s, DirectoryName(q)) {
      assert !IsWithin(p, q);
    }
    forall d | d in s.dirs ensures DirectoryExists(s, DirectoryName(d)) {
      assert !IsWithin(p, d);
    }
  }

  lemma ClearKeepsValid(st: Store, p: Path)
    requires Valid(st)
    ensures ClearOn(st, p).Success? ==> Valid(ClearOn(st, p).value)
  {
    DeleteKeepsValid(st, p);
    CreateDirectoryKeepsValid(if DirectoryExists(st, p) then DeleteTreeOn(st, p) else st, p);
  }

  /** The in-memory file system the generator runs against. */
  class FileSystem {
    var files: map<Path, string>
    var dirs: set<Path>

    function State(): Store
      reads this
    {
      Store(files, dirs)
    }

    constructor (st: Store)
      ensures State() == st
    {
      files, dirs := st.files, st.dirs;
    }

    method ReadAllText(p: Path) returns (r: Result<string, Error>)
      ensures r == ReadOn(State(), p)
    {
      if p in files {
        r := Success(files[p]);
      } else {
        r := Failure(FileNotFound(FullName(p)));
      }
    }

    method DeleteDirectory(p: Path)
      modifies this
      ensures State() == DeleteTreeOn(old(State()), p)
    {
      files := map q | q in files && !IsWithin(p, q) :: files[q];
      dirs := set d | d in dirs && !IsWithin(p, d);
    }

    method CreateDirectory(p: Path) returns (r: Outcome<Error>)
      modifies this
      ensures Run(State(), r) == Attempt(old(State()), CreateDirectoryOn(old(State()), p))
    {
      if exists k :: 1 <= k <= |p| && p[..k] in files {
        r := Fail(IOFailure(FullName(p)));
      } else {
        dirs := dirs + Prefixes(p);
        r := Pass;
      }
    }

    method Copy(dst: Path, text: string) returns (r: Outcome<Error>)
      modifies this
      ensures Run(State(), r) == Attempt(old(State()), CopyOn(old(State()), dst, text))
    {
      if !(DirectoryName(dst) == [] || DirectoryName(dst) in dirs) {
        r := Fail(DirectoryNotFound(FullName(dst)));
      } else if dst == [] || dst in files || dst in dirs {
        r := Fail(IOFailure(FullName(dst)));
      } else {
        files := files[dst := text];
        r := Pass;
      }
    }

    method WriteAllText(p: Path, text: string) returns (r: Outcome<Error>)
      modifies this
      ensures Run(State(), r) == Attempt(old(State()), WriteOn(old(State()), p, text))
    {
      if !(DirectoryName(p) == [] || DirectoryName(p) in dirs) {
        r := Fail(DirectoryNotFound(FullName(p)));
      } else if p == [] || p in dirs {
        r := Fail(IOFailure(FullName(p)));
      } else {
        files := files[p := text];
        r := Pass;
      }
    }
  }

  /** A directory as GetFiles and GetDirectories list it: its files, then its
      subdirectories, each in listing order. */
  datatype Tree = Tree(files: seq<RawFile>, subdirs: seq<SubDir>)
  datatype RawFile = RawFile(name: string, text: string)
  datatype SubDir = SubDir(name: string, tree: Tree)

  /** Copying a directory's files into `target`, one File.Copy after the other. */
  function CopyFilesOn(st: Store, files: seq<RawFile>, target: Path): Run {
    if files == [] then Run(st, Pass)
    else
      var before := CopyFilesOn(st, files[..|files| - 1], target);
      if before.outcome.Fail? then before
      else
        var f := files[|files| - 1];
        Attempt(before.store, CopyOn(before.store, Combine(target, f.name), f.text))
  }

  /** Copying the first `k` subdirectories of `tree`: each is created under
      `target` and then copied into. */
  function SubdirsOn(st: Store, tree: Tree, k: nat, target: Path): Run
    requires k <= |tree.subdirs|
    decreases tree, k
  {
    if k == 0 then Run(st, Pass)
    else
      var before := SubdirsOn(st, tree, k - 1, target);
      if before.outcome.Fail? then before
      else
        var sub := tree.subdirs[k - 1];
        var dir := Combine(target, sub.name);
        match CreateDirectoryOn(before.store, dir)
        case Failure(e) => Run(before.store, Fail(e))
        case Success(s) => TreeOn(s, sub.tree, dir)
  }

  /** Copying a whole tree into `target`: its files first, then its
      subdirectories. */
  function TreeOn(st: Store, tree: Tree, target: Path): Run
    decreases tree, |tree.subdirs| + 1
  {
    var after := CopyFilesOn(st, tree.files, target);
    if after.outcome.Fail? then after else SubdirsOn(after.store, tree, |tree.subdirs|, target)
  }

  /** A failed copy of a file is the failure of the whole file loop. */
  lemma {:induction false} CopyFilesFailureStays(st: Store, files: seq<RawFile>, i: nat, target: Path)
    requires i <= |files| && CopyFilesOn(st, files[..i], target).outcome.Fail?
    ensures CopyFilesOn(st, files, target) == CopyFilesOn(st, files[..i], target)
    decreases |files| - i
  {
    if i < |files| {
      assert files[..i + 1][..i] == files[..i];
      CopyFilesFailureStays(st, files, i + 1, target);
    } else {
      assert files[..i] == files;
    }
  }

  /** A failure in one subdirectory is the failure of the whole subdirectory loop. */
  lemma {:induction false} SubdirsFailureStays(st: Store, tree: Tree, k: nat, target: Path)
    requires k <= |tree.subdirs| && SubdirsOn(st, tree, k, target).outcome.Fail?
    ensures SubdirsOn(st, tree, |tree.subdirs|, target) == SubdirsOn(st, tree, k, target)
    decreases |tree.subdirs| - k
  {
    if k < |tree.subdirs| {
      SubdirsFailureStays(st, tree, k + 1, target);
    }
  }

  /** One subdirectory more, once it is created: the copy into it follows
      the subdirectories before it. */
  lemma SubdirsNext(st: Store, tree: Tree, k: nat, target: Path, mid: Store, made: Store)
    requires k < |tree.subdirs| && SubdirsOn(st, tree, k, target) == Run(mid, Pass)
    requires CreateDirectoryOn(mid, Combine(target, tree.subdirs[k].name)) == Success(made)
    ensures SubdirsOn(st, tree, k + 1, target) == TreeOn(made, tree.subdirs[k].tree, Combine(target, tree.subdirs[k].name))
    ensures SubdirEntries(tree, k + 1) == SubdirEntries(tree, k) + Under(tree.subdirs[k].name, TreeEntries(tree.subdirs[k].tree))
  {
  }

  /** The files of a tree, each with its path relative to the tree's root,
      in the order the copy visits them. */
  function FileEntries(files: seq<RawFile>): (r: seq<(Path, string)>)
    ensures |r| == |files|
  {
    if files == [] then []
    else FileEntries(files[..|files| - 1]) + [([files[|files| - 1].name], files[|files| - 1].text)]
  }

  function Under(name: string, entries: seq<(Path, string)>): (r: seq<(Path, string)>)
    ensures |r| == |entries|
  {
    seq(|entries|, k requires 0 <= k < |entries| => ([name] + entries[k].0, entries[k].1))
  }

  function SubdirEntries(tree: Tree, k: nat): seq<(Path, string)>
    requires k <= |tree.subdirs|
    decreases tree, k
  {
    if k == 0 then []
    else SubdirEntries(tree, k - 1) + Under(tree.subdirs[k - 1].name, TreeEntries(tree.subdirs[k - 1].tree))
  }

  function TreeEntries(tree: Tree): seq<(Path, string)>
    decreases tree, |tree.subdirs| + 1
  {
    FileEntries(tree.files) + SubdirEntries(tree, |tree.subdirs|)
  }

  /** `b` adds to `a` without removing or overwriting anything. */
  predicate Extends(a: Store, b: Store) {
    (forall p :: p in a.files ==> p in b.files && b.files[p] == a.files[p]) && a.dirs <= b.dirs
  }

  /** Every entry is present below `target` with its text. */
  predicate Places(st: Store, target: Path, entries: seq<(Path, string)>) {
    forall k :: 0 <= k < |entries| ==>
      target + entries[k].0 in st.files && st.files[target + entries[k].0] == entries[k].1
  }

  /** The paths the entries take below `target`. */
  function EntryPaths(target: Path, entries: seq<(Path, string)>): set<Path> {
    set k | 0 <= k < |entries| :: target + entries[k].0
  }

  /** Every file of `b` that `a` lacks is at one of `paths`. */
  predicate AddsOnly(a: Store, b: Store, paths: set<Path>) {
    forall p :: p in b.files && p !in a.files ==> p in paths
  }

  /** Every directory of `b` that `a` lacks is `target` or lies below it, or
      is one of the directories above it. */
  predicate AddsDirsOnlyAlong(a: Store, b: Store, target: Path) {
    forall d :: d in b.dirs && d !in a.dirs ==> IsWithin(target, d) || d in Prefixes(target)
  }

  lemma PlacesExtends(a: Store, b: Store, target: Path, entries: seq<(Path, string)>)
    requires Places(a, target, entries) && Extends(a, b)
    ensures Places(b, target, entries)
  {
    forall k | 0 <= k < |entries| ensures target + entries[k].0 in b.files {
      assert target + entries[k].0 in a.files;
    }
  }

  lemma PlacesUnder(st: Store, target: Path, name: string, entries: seq<(Path, string)>)
    requires Places(st, Combine(target, name), entries)
    ensures Places(st, target, Under(name, entries))
  {
    var u := Under(name, entries);
    forall k | 0 <= k < |u| ensures target + u[k].0 in st.files && st.files[target + u[k].0] == u[k].1 {
      assert target + u[k].0 == Combine(target, name) + entries[k].0;
    }
  }

  lemma PlacesAppend(st: Store, target: Path, a: seq<(Path, string)>, b: seq<(Path, string)>)
    requires Places(st, target, a) && Places(st, target, b)
    ensures Places(st, target, a + b)
  {
    forall k | 0 <= k < |a + b|
      ensures target + (a + b)[k].0 in st.files && st.files[target + (a + b)[k].0] == (a + b)[k].1
    {
      if k >= |a| {
        assert (a + b)[k] == b[k - |a|];
      }
    }
  }

  lemma EntryPathsAppend(target: Path, a: seq<(Path, string)>, b: seq<(Path, string)>)
    ensures EntryPaths(target, a + b) == EntryPaths(target, a) + EntryPaths(target, b)
  {
    forall p | p in EntryPaths(target, a + b) ensures p in EntryPaths(target, a) + EntryPaths(target, b) {
      var k :| 0 <= k < |a + b| && p == target + (a + b)[k].0;
      if k < |a| {
        assert (a + b)[k] == a[k];
      } else {
        assert (a + b)[k] == b[k - |a|];
      }
    }
    forall p | p in EntryPaths(target, a) + EntryPaths(target, b) ensures p in EntryPaths(target, a + b) {
      if p in EntryPaths(target, a) {
        var k :| 0 <= k < |a| && p == target + a[k].0;
        assert (a + b)[k] == a[k];
      } else {
        var k :| 0 <= k < |b| && p == target + b[k].0;
        assert (a + b)[|a| + k] == b[k];
      }
    }
  }

  lemma EntryPathsUnder(target: Path, name: string, entries: seq<(Path, string)>)
    ensures EntryPaths(target, Under(name, entries)) == EntryPaths(Combine(target, name), entries)
  {
    var u := Under(name, entries);
    forall k | 0 <= k < |u| ensures target + u[k].0 == Combine(target, name) + entries[k].0 {
    }
    forall p | p in EntryPaths(Combine(target, name), entries) ensures p in EntryPaths(target, u) {
      var k :| 0 <= k < |entries| && p == Combine(target, name) + entries[k].0;
      assert p == target + u[k].0;
    }
  }

  /** The directories above `target + [name]` are those above `target`, and
      `target` itself. */
  lemma PrefixesOfCombine(target: Path, name: string)
    ensures Prefixes(Combine(target, name)) == Prefixes(target) + {Combine(target, name)}
  {
    var c := Combine(target, name);
    forall d | d in Prefixes(c) ensures d in Prefixes(target) + {c} {
      var k :| 1 <= k <= |c| && d == c[..k];
      if k <= |target| {
        assert d == target[..k];
      } else {
        assert d == c[..|c|] == c;
      }
    }
    forall d | d in Prefixes(target) ensures d in Prefixes(c) {
      var k :| 1 <= k <= |target| && d == target[..k];
      assert d == c[..k];
    }
    assert c == c[..|c|];
  }

  /** A successful copy of files puts each at its place below the target,
      overwrites nothing, and adds no file but theirs and no directory. */
  lemma {:induction false} FilesCopied(st: Store, files: seq<RawFile>, target: Path)
    requires CopyFilesOn(st, files, target).outcome.Pass?
    ensures var s := CopyFilesOn(st, files, target).store;
      Extends(st, s) && s.dirs == st.dirs && Places(s, target, FileEntries(files))
      && AddsOnly(st, s, EntryPaths(target, FileEntries(files)))
  {
    if files != [] {
      var init, f := files[..|files| - 1], files[|files| - 1];
      FilesCopied(st, init, target);
      var before := CopyFilesOn(st, init, target).store;
      var s := CopyFilesOn(st, files, target).store;
      assert s == CopyOn(before, Combine(target, f.name), f.text).value;
      assert Extends(before, s);
      PlacesExtends(before, s, target, FileEntries(init));
      var last := [([f.name], f.text)];
      EntryPathsAppend(target, FileEntries(init), last);
      assert Combine(target, f.name) in EntryPaths(target, last) by {
        assert Combine(target, f.name) == target + last[0].0;
      }
    }
  }

  /** The same for the first `k` subdirectories of a tree; the directories
      added are below the target or above it. */
  lemma {:induction false} SubdirsCopied(st: Store, tree: Tree, k: nat, target: Path)
    requires k <= |tree.subdirs|
    requires SubdirsOn(st, tree, k, target).outcome.Pass?
    ensures var s := SubdirsOn(st, tree, k, target).store;
      Extends(st, s) && Places(s, target, SubdirEntries(tree, k))
      && AddsOnly(st, s, EntryPaths(target, SubdirEntries(tree, k))) && AddsDirsOnlyAlong(st, s, target)
    decreases tree, k
  {
    if k > 0 {
      SubdirsCopied(st, tree, k - 1, target);
      var before := SubdirsOn(st, tree, k - 1, target).store;
      var sub := tree.subdirs[k - 1];
      var dir := Combine(target, sub.name);
      var created := CreateDirectoryOn(before, dir).value;
      TreeCopied(created, sub.tree, dir);
      var s := SubdirsOn(st, tree, k, target).store;
      assert s == TreeOn(created, sub.tree, dir).store;
      var entries := Under(sub.name, TreeEntries(sub.tree));
      assert Extends(st, s);
      PlacesExtends(before, s, target, SubdirEntries(tree, k - 1));
      PlacesUnder(s, target, sub.name, TreeEntries(sub.tree));
      PlacesAppend(s, target, SubdirEntries(tree, k - 1), entries);
      EntryPathsUnder(target, sub.name, TreeEntries(sub.tree));
      EntryPathsAppend(target, SubdirEntries(tree, k - 1), entries);
      PrefixesOfCombine(target, sub.name);
      forall d | d in s.dirs && d !in st.dirs ensures IsWithin(target, d) || d in Prefixes(target) {
        if d !in created.dirs {
          assert IsWithin(dir, d) || d in Prefixes(dir);
          if IsWithin(dir, d) {
            assert d[..|target|] == dir[..|target|];
          }
        }
      }
    }
  }

  /** The same for a whole tree: every file of the tree is reproduced at the
      same relative position below the target, and no other file is added. */
  lemma {:induction false} TreeCopied(st: Store, tree: Tree, target: Path)
    requires TreeOn(st, tree, target).outcome.Pass?
    ensures var s := TreeOn(st, tree, target).store;
      Extends(st, s) && Places(s, target, TreeEntries(tree))
      && AddsOnly(st, s, EntryPaths(target, TreeEntries(tree))) && AddsDirsOnlyAlong(st, s, target)
    decreases tree, |tree.subdirs| + 1
  {
    FilesCopied(st, tree.files, target);
    var after := CopyFilesOn(st, tree.files, target).store;
    SubdirsCopied(after, tree, |tree.subdirs|, target);
    var s := TreeOn(st, tree, target).store;
    PlacesExtends(after, s, target, FileEntries(tree.files));
    PlacesAppend(s, target, FileEntries(tree.files), SubdirEntries(tree, |tree.subdirs|));
    EntryPathsAppend(target, FileEntries(tree.files), SubdirEntries(tree, |tree.subdirs|));
  }

  /** The entries' paths lie strictly below the target. */
  lemma {:induction false} TreeEntryPathsBelow(tree: Tree, target: Path)
    ensures forall p :: p in EntryPaths(target, TreeEntries(tree)) ==> IsWithin(target, p) && p != target
  {
    forall p | p in EntryPaths(target, TreeEntries(tree)) ensures IsWithin(target, p) && p != target {
      var k :| 0 <= k < |TreeEntries(tree)| && p == target + TreeEntries(tree)[k].0;
      TreeEntryNonEmpty(tree, k);
      assert p[..|target|] == target;
    }
  }

  lemma TreeEntryNonEmpty(tree: Tree, k: int)
    requires 0 <= k < |TreeEntries(tree)|
    ensures TreeEntries(tree)[k].0 != []
  {
    var e := TreeEntries(tree);
    var f := FileEntries(tree.files);
    if k < |f| {
      assert e[k] == f[k];
      FileEntryNonEmpty(tree.files, k);
    } else {
      assert e[k] == SubdirEntries(tree, |tree.subdirs|)[k - |f|];
      SubdirEntryNonEmpty(tree, |tree.subdirs|, k - |f|);
    }
  }

  lemma {:induction false} FileEntryNonEmpty(files: seq<RawFile>, k: int)
    requires 0 <= k < |FileEntries(files)|
    ensures FileEntries(files)[k].0 != []
  {
    var init := files[..|files| - 1];
    if k < |files| - 1 {
      FileEntryNonEmpty(init, k);
      assert FileEntries(files)[k] == FileEntries(init)[k];
    }
  }

  lemma {:induction false} SubdirEntryNonEmpty(tree: Tree, n: nat, k: int)
    requires n <= |tree.subdirs| && 0 <= k < |SubdirEntries(tree, n)|
    ensures SubdirEntries(tree, n)[k].0 != []
  {
    var prev := SubdirEntries(tree, n - 1);
    if k < |prev| {
      SubdirEntryNonEmpty(tree, n - 1, k);
      assert SubdirEntries(tree, n)[k] == prev[k];
    } else {
      var u := Under(tree.subdirs[n - 1].name, TreeEntries(tree.subdirs[n - 1].tree));
      assert SubdirEntries(tree, n)[k] == u[k - |prev|];
    }
  }

  /** A cleared directory in a well formed store: everything outside kept,
      nothing inside, the directory and those above it present. */
  lemma ClearedStore(st: Store, p: Path)
    requires Valid(st) && ClearOn(st, p).Success?
    ensures ClearOn(st, p).value == Store(DeleteTreeOn(st, p).files, DeleteTreeOn(st, p).dirs + Prefixes(p))
  {
    if !DirectoryExists(st, p) {
      assert p != [] && p[..|p|] == p;
      forall q | q in st.files ensures !IsWithin(p, q) {
        ParentOfWithin(st, p, q);
      }
      forall d | d in st.dirs ensures !IsWithin(p, d) {
        if IsWithin(p, d) {
          NoDirectoryBelowMissing(st, p, d);
        }
      }
      assert DeleteTreeOn(st, p) == st;
    }
  }

  /** Clearing depends only on what lies outside the directory: a store that
      holds the directory and agrees outside it with one whose clearing
      succeeded is cleared to the same store. */
  lemma ClearSameOutside(a: Store, b: Store, p: Path)
    requires Valid(a) && ClearOn(a, p).Success? && DirectoryExists(b, p)
    requires DeleteTreeOn(b, p).files == DeleteTreeOn(a, p).files
    requires DeleteTreeOn(b, p).dirs + Prefixes(p) == DeleteTreeOn(a, p).dirs + Prefixes(p)
    ensures ClearRun(b, p) == Run(ClearOn(a, p).value, Pass)
  {
    ClearedStore(a, p);
    var da, db := DeleteTreeOn(a, p), DeleteTreeOn(b, p);
    var sa := if DirectoryExists(a, p) then da else a;
    assert !exists k :: 1 <= k <= |p| && p[..k] in sa.files;
  }
}
