/** File-system paths. A path is the sequence of its components from the root,
    so `["site", "pages", "a.md"]` stands for `/site/pages/a.md`. */
module Paths {

  import opened Wrappers

  type Path = seq<string>

  /** FileInfo.Name / DirectoryInfo.Name: the last component. */
  function Name(p: Path): string {
    if p == [] then "" else p[|p| - 1]
  }

  /** FileInfo.DirectoryName: the path of the containing directory. */
  function DirectoryName(p: Path): Path {
    if p == [] then [] else p[..|p| - 1]
  }

  /** Path.Combine(dir, name) for a name that is a single component. */
  function Combine(dir: Path, name: string): (r: Path)
    ensures Name(r) == name && DirectoryName(r) == dir
    ensures |r| == |dir| + 1 && IsWithin(dir, r)
  {
    dir + [name]
  }

  /** `p` is `dir` itself or lies somewhere below it. */
  predicate IsWithin(dir: Path, p: Path) {
    |dir| <= |p| && p[..|dir|] == dir
  }

  /** A path strictly below a directory has more components. */
  lemma WithinIsLonger(dir: Path, p: Path)
    requires IsWithin(dir, p) && dir != p
    ensures |dir| < |p|
  {
  }

  /** FullName: the textual form of the path, each component after a '/'. */
  function FullName(p: Path): string {
    if p == [] then "" else FullName(p[..|p| - 1]) + "/" + p[|p| - 1]
  }

  /** The index of the last '.' in a file name, if there is one. */
  function LastDot(name: string): (r: Option<nat>)
    ensures r.Some? ==> r.value < |name| && name[r.value] == '.'
    ensures r.Some? ==> forall i :: r.value < i < |name| ==> name[i] != '.'
    ensures r.None? ==> forall i :: 0 <= i < |name| ==> name[i] != '.'
  {
    if name == [] then None
    else if name[|name| - 1] == '.' then Some(|name| - 1)
    else LastDot(name[..|name| - 1])
  }

  /** Path.ChangeExtension on a file name: the text from the last '.' on is
      replaced by `ext`; a name without a '.' gets `ext` appended. */
  function ChangeExtension(name: string, ext: string): string {
    match LastDot(name)
    case Some(i) => name[..i] + ext
    case None => name + ext
  }

  /** The "*.md" search pattern of Directory.EnumerateFiles. */
  predicate IsMarkdownName(name: string) {
    |name| >= 3 && name[|name| - 3..] == ".md"
  }

  /** `foo.md` becomes `foo.html`, whatever dots the stem holds. */
  lemma MarkdownNameToHtml(stem: string)
    ensures IsMarkdownName(stem + ".md")
    ensures ChangeExtension(stem + ".md", ".html") == stem + ".html"
  {
    var name := stem + ".md";
    assert name[..|name| - 1] == stem + ".m";
    assert (stem + ".m")[..|stem| + 1] == stem + ".";
    assert LastDot(stem + ".") == Some(|stem|);
    assert LastDot(stem + ".m") == Some(|stem|);
    assert name[|name| - 3..] == ".md";
    assert name[..|stem|] == stem;
  }

  // ------------------------------------------------- names relative to a directory

  /** The '/'-separated pieces of a name; "a//b/" has the pieces a, "", b, "". */
  function Pieces(s: string): (r: seq<string>)
    ensures |r| >= 1
  {
    if s == [] then [""]
    else
      var rest := Pieces(s[1..]);
      if s[0] == '/' then [""] + rest else [[s[0]] + rest[0]] + rest[1..]
  }

  /** One piece applied to a directory: an empty piece and "." stay, ".."
      climbs (the root is its own parent), any other name descends. */
  function Step(dir: Path, piece: string): Path {
    if piece == "" || piece == "." then dir
    else if piece == ".." then (if dir == [] then [] else DirectoryName(dir))
    else Combine(dir, piece)
  }

  function Walk(dir: Path, pieces: seq<string>): Path
    decreases pieces
  {
    if pieces == [] then dir else Walk(Step(dir, pieces[0]), pieces[1..])
  }

  /** A name rooted with '/'. */
  predicate IsRooted(name: string) {
    |name| > 0 && name[0] == '/'
  }

  /** `new DirectoryInfo(Path.Combine(dir, name))`: a rooted name replaces the
      directory, any other is taken relative to it, and the full name is
      normalised piece by piece. */
  function Resolve(dir: Path, name: string): Path {
    Walk(if IsRooted(name) then [] else dir, Pieces(name))
  }

  /** A plain name is a single component. */
  predicate IsPlainName(name: string) {
    name != "" && name != "." && name != ".." && forall i :: 0 <= i < |name| ==> name[i] != '/'
  }

  lemma {:induction false} PiecesOfSlashFree(s: string)
    requires forall i :: 0 <= i < |s| ==> s[i] != '/'
    ensures Pieces(s) == [s]
  {
    if s != [] {
      assert forall i :: 0 <= i < |s[1..]| ==> s[1..][i] != '/' by {
        forall i | 0 <= i < |s[1..]| ensures s[1..][i] != '/' {
          assert s[1..][i] == s[i + 1];
        }
      }
      PiecesOfSlashFree(s[1..]);
      assert [s[0]] + s[1..] == s;
    }
  }

  /** A plain name resolves as Path.Combine appends it. */
  lemma ResolvePlain(dir: Path, name: string)
    requires IsPlainName(name)
    ensures Resolve(dir, name) == Combine(dir, name)
  {
    PiecesOfSlashFree(name);
    assert Walk(dir, [name]) == Walk(Combine(dir, name), []);
  }

  /** The pieces of `a/b` are those of `a` followed by those of `b`. */
  lemma {:induction false} PiecesAppend(a: string, b: string)
    ensures Pieces(a + "/" + b) == Pieces(a) + Pieces(b)
  {
    if a == [] {
      assert a + "/" + b == "/" + b;
      assert ("/" + b)[1..] == b;
    } else {
      var s := a + "/" + b;
      assert s[0] == a[0] && s[1..] == a[1..] + "/" + b;
      PiecesAppend(a[1..], b);
      var head, tail := Pieces(a[1..]), Pieces(b);
      if a[0] != '/' {
        assert (head + tail)[0] == head[0];
        assert (head + tail)[1..] == head[1..] + tail;
        assert Pieces(s) == [[a[0]] + head[0]] + (head[1..] + tail);
      }
    }
  }

  lemma {:induction false} WalkAppend(dir: Path, p: seq<string>, q: seq<string>)
    ensures Walk(dir, p + q) == Walk(Walk(dir, p), q)
    decreases p
  {
    if p == [] {
      assert p + q == q;
    } else {
      assert (p + q)[1..] == p[1..] + q;
      WalkAppend(Step(dir, p[0]), p[1..], q);
    }
  }

  /** Resolving `a/b` is resolving `b` from where `a` leads. */
  lemma ResolveAppend(dir: Path, a: string, b: string)
    requires a != ""
    ensures Resolve(dir, a + "/" + b) == Walk(Resolve(dir, a), Pieces(b))
  {
    PiecesAppend(a, b);
    WalkAppend(if IsRooted(a) then [] else dir, Pieces(a), Pieces(b));
    assert (a + "/" + b)[0] == a[0];
  }

  /** `../name` resolves against the parent directory. */
  lemma ResolveParent(dir: Path, name: string)
    requires dir != [] && !IsRooted(name)
    ensures Resolve(dir, "../" + name) == Resolve(DirectoryName(dir), name)
  {
    assert "../" + name == ".." + "/" + name;
    ResolveAppend(dir, "..", name);
    PiecesOfSlashFree("..");
    assert Resolve(dir, "..") == Walk(DirectoryName(dir), []);
  }
}
