/** The page pipeline on values: which pages are discovered, what loading and
    rendering make of them, and what committing them does to the file
    system. The generator's methods are proved against these functions. */
module Pages {

  import opened Wrappers
  import opened Exceptions
  import opened Paths
  import opened YamlUtils
  import opened Configs
  import opened FileSystems
  import opened Partition

  /** What RazorLight's CompileRenderAsync is given: the template directory
      the engine was built for, the template name, and the page model with
      the site configuration and the list of all pages it refers to. */
  datatype RenderInput = RenderInput(templatesDir: Path, template: Option<string>, page: ModelView,
                                     site: SiteView, all: seq<PageView>)

  /** The foreign engines, each a function that may fail: the YAML parser,
      the binders onto the three record types, Markdig and RazorLight. */
  datatype Libraries = Libraries(
    deserialize: string -> Option<YamlNode>,
    bindSite: YamlNode -> Option<SiteFields>,
    bindTheme: YamlNode -> Option<ThemeFields>,
    bindPage: YamlNode -> Option<PageHeader>,
    toHtml: string -> Option<string>,
    render: RenderInput -> Option<string>)

  /** What rendering depends on besides the pages: the engines, the
      templates directory and the site configuration. */
  datatype Env = Env(libs: Libraries, templatesDir: Path, site: SiteView)

  // ---------------------------------------------------------------- discovery

  /** The files EnumerateFiles("*.md", ...) keeps. */
  predicate IsMarkdownFile(p: Path) {
    IsMarkdownName(Name(p))
  }

  /** Enumerable.Take: a negative count takes nothing. */
  function Take<T>(s: seq<T>, count: int): (r: seq<T>)
    ensures |r| == if count <= 0 then 0 else if count < |s| then count else |s|
    ensures r == s[..|r|]
  {
    if count <= 0 then [] else if count < |s| then s[..count] else s
  }

  /** The markdown files of a listing, at most `max` of them, in listing order. */
  function Discovered(listing: seq<Path>, max: int): seq<Path> {
    Take(Select(listing, IsMarkdownFile, true), max)
  }

  /** Discovery yields exactly min(max, number of markdown files) pages (none
      for a max of zero or less), each a markdown file of the listing, and
      they are the first markdown files of the listing in its order. */
  lemma DiscoveryCount(listing: seq<Path>, max: int)
    ensures var all := Select(listing, IsMarkdownFile, true);
      |Discovered(listing, max)| == (if max <= 0 then 0 else if max < |all| then max else |all|)
      && Discovered(listing, max) == all[..|Discovered(listing, max)|]
    ensures max <= 0 ==> Discovered(listing, max) == []
    ensures forall k :: 0 <= k < |Discovered(listing, max)| ==>
      IsMarkdownFile(Discovered(listing, max)[k]) && Discovered(listing, max)[k] in listing
  {
    var all := Select(listing, IsMarkdownFile, true);
    SelectKeeps(listing, IsMarkdownFile, true);
    forall k | 0 <= k < |Discovered(listing, max)|
      ensures IsMarkdownFile(Discovered(listing, max)[k]) && Discovered(listing, max)[k] in listing
    {
      assert Discovered(listing, max)[k] == all[k];
    }
  }

  /** PrepareEmptyPageResult's output path: the input's file name with the
      extension changed to ".html", directly in the output directory. */
  function OutputPathFor(inPath: Path, outputs: Path): (r: Path)
    ensures DirectoryName(r) == outputs && Name(r) == ChangeExtension(Name(inPath), ".html")
    ensures IsWithin(outputs, r) && r != outputs
  {
    Combine(outputs, ChangeExtension(Name(inPath), ".html"))
  }

  /** `<dir>/foo.md` goes to `<outputs>/foo.html`, whatever `<dir>` is. */
  lemma MarkdownOutputName(dir: Path, stem: string, outputs: Path)
    ensures OutputPathFor(dir + [stem + ".md"], outputs) == outputs + [stem + ".html"]
  {
    MarkdownNameToHtml(stem);
  }

  /** The output path depends only on the file name, so same-named pages in
      different subdirectories collide. */
  lemma SameNameCollides(dir1: Path, dir2: Path, name: string, outputs: Path)
    ensures OutputPathFor(dir1 + [name], outputs) == OutputPathFor(dir2 + [name], outputs)
    ensures dir1 != dir2 ==> dir1 + [name] != dir2 + [name]
  {
    if dir1 != dir2 {
      assert (dir1 + [name])[..|dir1 + [name]| - 1] == dir1;
      assert (dir2 + [name])[..|dir2 + [name]| - 1] == dir2;
    }
  }

  /** The empty result made for one discovered file. */
  function EmptyResult(path: Path, outputs: Path): PageView {
    PageView(path, OutputPathFor(path, outputs), None, None)
  }

  /** The empty results made for the discovered files, in their order. */
  function EmptyResults(paths: seq<Path>, outputs: Path): (r: seq<PageView>)
    ensures |r| == |paths|
  {
    seq(|paths|, k requires 0 <= k < |paths| => EmptyResult(paths[k], outputs))
  }

  // ---------------------------------------------------------------- loading

  /** LoadPage on values: read the file, convert the whole markdown text,
      extract and decode the header; a null header faults at the first
      field assignment. */
  function LoadedModel(st: Store, inPath: Path, outPath: Path, libs: Libraries): Result<ModelView, Error> {
    match ReadOn(st, inPath)
    case Failure(e) => Failure(e)
    case Success(markdown) =>
      match libs.toHtml(markdown)
      case None => Failure(ConverterFault)
      case Some(contents) =>
        match YamlHeader(inPath, markdown, libs.deserialize, libs.bindPage)
        case Failure(e) => Failure(e)
        case Success(None) => Failure(NullReference)
        case Success(Some(header)) => Success(ModelView(header, Some(markdown), Some(contents), Some(Name(outPath))))
  }

  /** A loaded model holds the decoded header, the file text, the converter
      applied to that whole text and the output file name; the file is read
      and converted before the header is looked at, so a converter failure
      wins over a bad header. */
  lemma LoadedModelFields(st: Store, inPath: Path, outPath: Path, libs: Libraries)
    ensures LoadedModel(st, inPath, outPath, libs).Success? <==>
      inPath in st.files && libs.toHtml(st.files[inPath]).Some?
      && YamlHeader(inPath, st.files[inPath], libs.deserialize, libs.bindPage).Success?
      && YamlHeader(inPath, st.files[inPath], libs.deserialize, libs.bindPage).value.Some?
    ensures LoadedModel(st, inPath, outPath, libs).Success? ==>
      var m := LoadedModel(st, inPath, outPath, libs).value;
      m.markdown == Some(st.files[inPath]) && m.contents == libs.toHtml(st.files[inPath])
      && m.pageLink == Some(Name(outPath))
      && YamlHeader(inPath, st.files[inPath], libs.deserialize, libs.bindPage) == Success(Some(m.header))
    ensures inPath !in st.files ==> LoadedModel(st, inPath, outPath, libs) == Failure(FileNotFound(FullName(inPath)))
    ensures inPath in st.files && libs.toHtml(st.files[inPath]).None? ==>
      LoadedModel(st, inPath, outPath, libs) == Failure(ConverterFault)
  {
  }

  /** The page link is the HTML file name: `foo.html` for `foo.md`. */
  lemma PageLinkOfMarkdown(st: Store, dir: Path, stem: string, outputs: Path, libs: Libraries)
    requires LoadedModel(st, dir + [stem + ".md"], OutputPathFor(dir + [stem + ".md"], outputs), libs).Success?
    ensures LoadedModel(st, dir + [stem + ".md"], OutputPathFor(dir + [stem + ".md"], outputs), libs).value.pageLink
            == Some(stem + ".html")
  {
    MarkdownOutputName(dir, stem, outputs);
  }

  /** Loading every page in list order, stopping at the first failure. */
  function LoadAll(st: Store, pages: seq<PageView>, libs: Libraries): (r: Result<seq<PageView>, Error>)
    ensures r.Success? ==> |r.value| == |pages|
  {
    if pages == [] then Success([])
    else
      match LoadAll(st, pages[..|pages| - 1], libs)
      case Failure(e) => Failure(e)
      case Success(done) =>
        var p := pages[|pages| - 1];
        match LoadedModel(st, p.inPath, p.outPath, libs)
        case Failure(e) => Failure(e)
        case Success(m) => Success(done + [p.(model := Some(m))])
  }

  predicate LoadsAt(st: Store, pages: seq<PageView>, libs: Libraries, k: int)
    requires 0 <= k < |pages|
  {
    LoadedModel(st, pages[k].inPath, pages[k].outPath, libs).Success?
  }

  /** The page as loading leaves it: its paths, and its own model. */
  function LoadedAt(st: Store, pages: seq<PageView>, libs: Libraries, k: int): PageView
    requires 0 <= k < |pages| && LoadsAt(st, pages, libs, k)
  {
    pages[k].(model := Some(LoadedModel(st, pages[k].inPath, pages[k].outPath, libs).value))
  }

  lemma LoadsAtPrefix(st: Store, pages: seq<PageView>, libs: Libraries)
    requires pages != []
    ensures forall k :: 0 <= k < |pages| - 1 ==>
      (LoadsAt(st, pages[..|pages| - 1], libs, k) <==> LoadsAt(st, pages, libs, k))
  {
  }

  /** Loading succeeds exactly when every page loads. */
  lemma {:induction false} LoadAllSucceeds(st: Store, pages: seq<PageView>, libs: Libraries)
    ensures LoadAll(st, pages, libs).Success? <==> forall k :: 0 <= k < |pages| ==> LoadsAt(st, pages, libs, k)
  {
    if pages != [] {
      var n := |pages| - 1;
      LoadAllSucceeds(st, pages[..n], libs);
      LoadsAtPrefix(st, pages, libs);
      if forall k :: 0 <= k < |pages| ==> LoadsAt(st, pages, libs, k) {
        assert LoadsAt(st, pages, libs, n);
        forall k | 0 <= k < n ensures LoadsAt(st, pages[..n], libs, k) {
          assert LoadsAt(st, pages, libs, k);
        }
      } else if LoadAll(st, pages[..n], libs).Success? {
        assert !LoadsAt(st, pages, libs, n);
      }
    }
  }

  /** After loading, each page keeps its paths and holds its own model. */
  lemma {:induction false} LoadAllValues(st: Store, pages: seq<PageView>, libs: Libraries)
    requires LoadAll(st, pages, libs).Success?
    ensures forall k :: 0 <= k < |pages| ==>
      LoadsAt(st, pages, libs, k) && LoadAll(st, pages, libs).value[k] == LoadedAt(st, pages, libs, k)
  {
    if pages != [] {
      var init, n := pages[..|pages| - 1], |pages| - 1;
      LoadAllValues(st, init, libs);
      LoadsAtPrefix(st, pages, libs);
      var done, r := LoadAll(st, init, libs).value, LoadAll(st, pages, libs).value;
      assert LoadsAt(st, pages, libs, n);
      assert r == done + [LoadedAt(st, pages, libs, n)];
      forall k | 0 <= k < n ensures LoadsAt(st, pages, libs, k) && r[k] == LoadedAt(st, pages, libs, k) {
        assert r[k] == done[k] && init[k] == pages[k];
      }
    }
  }

  /** A failed load reports the error of the first page that does not load. */
  lemma {:induction false} LoadAllFirstFailure(st: Store, pages: seq<PageView>, libs: Libraries)
    requires LoadAll(st, pages, libs).Failure?
    ensures exists k :: (0 <= k < |pages| && (forall j :: 0 <= j < k ==> LoadsAt(st, pages, libs, j))
      && LoadedModel(st, pages[k].inPath, pages[k].outPath, libs) == Failure(LoadAll(st, pages, libs).error))
  {
    var init, n := pages[..|pages| - 1], |pages| - 1;
    LoadsAtPrefix(st, pages, libs);
    if LoadAll(st, init, libs).Failure? {
      LoadAllFirstFailure(st, init, libs);
      var k :| 0 <= k < n && (forall j :: 0 <= j < k ==> LoadsAt(st, init, libs, j))
               && LoadedModel(st, init[k].inPath, init[k].outPath, libs) == Failure(LoadAll(st, init, libs).error);
      assert init[k] == pages[k];
    } else {
      LoadAllSucceeds(st, init, libs);
      assert LoadedModel(st, pages[n].inPath, pages[n].outPath, libs) == Failure(LoadAll(st, pages, libs).error);
    }
  }

  /** One more page loaded: its failure is the loop's, its model joins the list. */
  lemma LoadAllStep(st: Store, pages: seq<PageView>, i: int, libs: Libraries)
    requires 0 <= i < |pages| && LoadAll(st, pages[..i], libs).Success?
    ensures LoadAll(st, pages[..i + 1], libs) ==
      match LoadedModel(st, pages[i].inPath, pages[i].outPath, libs)
      case Failure(e) => Failure(e)
      case Success(m) => Success(LoadAll(st, pages[..i], libs).value + [pages[i].(model := Some(m))])
  {
    assert pages[..i + 1][..i] == pages[..i];
  }

  /** A failure among the first pages is the failure of the whole list. */
  lemma {:induction false} LoadAllFailureStays(st: Store, pages: seq<PageView>, i: nat, libs: Libraries)
    requires i <= |pages| && LoadAll(st, pages[..i], libs).Failure?
    ensures LoadAll(st, pages, libs) == LoadAll(st, pages[..i], libs)
    decreases |pages| - i
  {
    if i < |pages| {
      assert pages[..i + 1][..i] == pages[..i];
      LoadAllFailureStays(st, pages, i + 1, libs);
    } else {
      assert pages[..i] == pages;
    }
  }

  /** Replacing the first element after a prefix. */
  lemma ReplaceAfterPrefix<T>(done: seq<T>, rest: seq<T>, v: T)
    requires rest != []
    ensures (done + rest)[|done| := v] == (done + [v]) + rest[1..]
  {
  }

  /** LoadPage on the list in place: the page at `k` gets its model. */
  function LoadedOne(st: Store, pages: seq<PageView>, k: int, libs: Libraries): (r: Result<seq<PageView>, Error>)
    requires 0 <= k < |pages|
    ensures r.Success? ==> |r.value| == |pages|
  {
    match LoadedModel(st, pages[k].inPath, pages[k].outPath, libs)
    case Failure(e) => Failure(e)
    case Success(m) => Success(pages[k := pages[k].(model := Some(m))])
  }

  /** The list after the loading loop has loaded its first `k` pages in place. */
  function LoadedInPlace(st: Store, pages: seq<PageView>, k: nat, libs: Libraries): (r: Result<seq<PageView>, Error>)
    requires k <= |pages|
    ensures r.Success? ==> |r.value| == |pages|
  {
    if k == 0 then Success(pages)
    else
      match LoadedInPlace(st, pages, k - 1, libs)
      case Failure(e) => Failure(e)
      case Success(done) => LoadedOne(st, done, k - 1, libs)
  }

  /** Loading in place agrees with loading into a new list: the loaded
      prefix, then the pages not yet reached. */
  lemma {:induction false} LoadedInPlaceIsLoadAll(st: Store, pages: seq<PageView>, k: nat, libs: Libraries)
    requires k <= |pages|
    ensures LoadedInPlace(st, pages, k, libs) ==
      match LoadAll(st, pages[..k], libs)
      case Failure(e) => Failure(e)
      case Success(done) => Success(done + pages[k..])
  {
    if k > 0 {
      LoadedInPlaceIsLoadAll(st, pages, k - 1, libs);
      if LoadAll(st, pages[..k - 1], libs).Failure? {
        assert pages[..k][..k - 1] == pages[..k - 1];
        LoadAllFailureStays(st, pages[..k], k - 1, libs);
      } else {
        var done := LoadAll(st, pages[..k - 1], libs).value;
        LoadAllStep(st, pages, k - 1, libs);
        var cur := done + pages[k - 1..];
        assert cur[k - 1] == pages[k - 1];
        match LoadedModel(st, pages[k - 1].inPath, pages[k - 1].outPath, libs)
        case Failure(e) =>
        case Success(m) =>
          ReplaceAfterPrefix(done, pages[k - 1..], pages[k - 1].(model := Some(m)));
          assert pages[k - 1..][1..] == pages[k..];
      }
    } else {
      assert pages[..0] == [] && [] + pages[0..] == pages;
    }
  }

  /** After the whole list, loading in place is LoadAll; a failure on the
      way is LoadAll's failure. */
  lemma LoadedInPlaceOutcome(st: Store, pages: seq<PageView>, k: nat, libs: Libraries)
    requires k <= |pages|
    requires k == |pages| || LoadedInPlace(st, pages, k, libs).Failure?
    ensures LoadedInPlace(st, pages, k, libs) == LoadAll(st, pages, libs)
  {
    LoadedInPlaceIsLoadAll(st, pages, k, libs);
    if k == |pages| {
      assert pages[..k] == pages;
      assert pages[k..] == [];
      if LoadAll(st, pages, libs).Success? {
        assert LoadAll(st, pages, libs).value + [] == LoadAll(st, pages, libs).value;
      }
    } else {
      LoadAllFailureStays(st, pages, k, libs);
    }
  }

  // ---------------------------------------------------------------- ordering

  /** The key MoveIndexPagesToEnd partitions on. */
  predicate IsIndexView(v: PageView) {
    v.model.Some? && v.model.value.header.isIndex
  }

  // ---------------------------------------------------------------- rendering

  function RenderMessage(name: string): string {
    "Error while rendering HTML for page " + name
  }

  /** The renderer's input for page `k` when the list is in state `pages`. */
  function RenderInputFor(pages: seq<PageView>, k: int, env: Env): RenderInput
    requires 0 <= k < |pages| && pages[k].model.Some?
  {
    RenderInput(env.templatesDir, pages[k].model.value.header.template, pages[k].model.value, env.site, pages)
  }

  /** RenderPage on values: any failure inside the engine, a missing model
      included, is reported as a rendering error naming the page. */
  function RenderedOne(pages: seq<PageView>, k: int, env: Env): (r: Result<seq<PageView>, Error>)
    requires 0 <= k < |pages|
    ensures r.Success? ==> |r.value| == |pages|
  {
    if pages[k].model.None? then Failure(InvalidOperation(RenderMessage(Name(pages[k].inPath))))
    else
      match env.libs.render(RenderInputFor(pages, k, env))
      case None => Failure(InvalidOperation(RenderMessage(Name(pages[k].inPath))))
      case Some(html) => Success(pages[k := pages[k].(html := Some(html))])
  }

  /** The list after rendering its first `k` pages in order; each page is
      rendered against the list as the earlier pages left it. */
  function Rendered(pages: seq<PageView>, k: nat, env: Env): (r: Result<seq<PageView>, Error>)
    requires k <= |pages|
    ensures r.Success? ==> |r.value| == |pages|
  {
    if k == 0 then Success(pages)
    else
      match Rendered(pages, k - 1, env)
      case Failure(e) => Failure(e)
      case Success(done) => RenderedOne(done, k - 1, env)
  }

  /** Rendering the first `k` pages gives each of them HTML, changes nothing
      else about them, and leaves the rest of the list as it was. */
  lemma {:induction false} RenderedShape(pages: seq<PageView>, k: nat, env: Env)
    requires k <= |pages| && Rendered(pages, k, env).Success?
    ensures var done := Rendered(pages, k, env).value;
      forall j :: 0 <= j < |pages| ==>
        done[j] == pages[j].(html := done[j].html)
        && (j < k ==> done[j].html.Some? && done[j].model.Some?)
        && (j >= k ==> done[j] == pages[j])
  {
    if k > 0 {
      RenderedShape(pages, k - 1, env);
    }
  }

  /** Each rendered page holds what the renderer made of it, given the list
      as it stood when its turn came. */
  lemma {:induction false} RenderedOutputs(pages: seq<PageView>, k: nat, env: Env)
    requires k <= |pages| && Rendered(pages, k, env).Success?
    ensures forall j :: 0 <= j < k ==>
      Rendered(pages, j, env).Success? && Rendered(pages, j, env).value[j].model.Some?
      && Rendered(pages, k, env).value[j].html == env.libs.render(RenderInputFor(Rendered(pages, j, env).value, j, env))
  {
    if k > 0 {
      RenderedOutputs(pages, k - 1, env);
      var before := Rendered(pages, k - 1, env).value;
      RenderedShape(pages, k - 1, env);
      assert before[k - 1] == pages[k - 1];
    }
  }

  /** A rendering failure is the failure of the whole loop. */
  lemma {:induction false} RenderFailureStays(pages: seq<PageView>, i: nat, env: Env)
    requires i <= |pages| && Rendered(pages, i, env).Failure?
    ensures Rendered(pages, |pages|, env) == Rendered(pages, i, env)
    decreases |pages| - i
  {
    if i < |pages| {
      RenderFailureStays(pages, i + 1, env);
    }
  }

  /** The rendering loop's step: the page at `i` rendered against the list
      as the loop holds it; its failure is the loop's. */
  lemma RenderStep(pages: seq<PageView>, i: nat, env: Env, cur: seq<PageView>)
    requires i < |pages| && Rendered(pages, i, env) == Success(cur)
    ensures Rendered(pages, i + 1, env) == RenderedOne(cur, i, env)
    ensures RenderedOne(cur, i, env).Failure? ==> Rendered(pages, |pages|, env) == RenderedOne(cur, i, env)
  {
    if RenderedOne(cur, i, env).Failure? {
      RenderFailureStays(pages, i + 1, env);
    }
  }

  lemma {:induction false} RenderedPrefix(pages: seq<PageView>, j: nat, k: nat, env: Env)
    requires j <= k <= |pages| && Rendered(pages, k, env).Success?
    ensures Rendered(pages, j, env).Success?
    decreases k
  {
    if j < k {
      RenderedPrefix(pages, j, k - 1, env);
    }
  }

  /** The reason for moving index pages to the end: in a list where they
      come last, every index page is rendered after every other page, and
      the list its template is given holds the HTML of every other page. */
  lemma IndexPagesSeeOthersRendered(pages: seq<PageView>, env: Env)
    requires FlaggedLast(pages, IsIndexView)
    requires Rendered(pages, |pages|, env).Success?
    ensures forall i, j :: 0 <= i < |pages| && 0 <= j < |pages| && !IsIndexView(pages[i]) && IsIndexView(pages[j]) ==>
      i < j && Rendered(pages, j, env).Success? && Rendered(pages, j, env).value[j].model.Some?
      && RenderInputFor(Rendered(pages, j, env).value, j, env).all[i].html.Some?
  {
    forall i, j | 0 <= i < |pages| && 0 <= j < |pages| && !IsIndexView(pages[i]) && IsIndexView(pages[j])
      ensures i < j && Rendered(pages, j, env).Success? && Rendered(pages, j, env).value[j].model.Some?
              && RenderInputFor(Rendered(pages, j, env).value, j, env).all[i].html.Some?
    {
      assert i < j;
      RenderedPrefix(pages, j, |pages|, env);
      RenderedShape(pages, j, env);
    }
  }

  // ---------------------------------------------------------------- commit

  /** WritePage for every page in list order, stopping at the first failure.
      A null HTML text writes an empty file. */
  function WriteAll(st: Store, pages: seq<PageView>): Run {
    if pages == [] then Run(st, Pass)
    else
      var before := WriteAll(st, pages[..|pages| - 1]);
      if before.outcome.Fail? then before
      else
        var p := pages[|pages| - 1];
        Attempt(before.store, WriteOn(before.store, p.outPath, p.html.GetOr("")))
  }

  /** One more page written, after the earlier ones succeeded. */
  lemma WriteStep(st: Store, pages: seq<PageView>, i: int)
    requires 0 <= i < |pages| && WriteAll(st, pages[..i]).outcome.Pass?
    ensures var before := WriteAll(st, pages[..i]).store;
      WriteAll(st, pages[..i + 1]) == Attempt(before, WriteOn(before, pages[i].outPath, pages[i].html.GetOr("")))
  {
    assert pages[..i + 1][..i] == pages[..i];
  }

  /** A write failure is the failure of the whole loop. */
  lemma {:induction false} WriteFailureStays(st: Store, pages: seq<PageView>, i: nat)
    requires i <= |pages| && WriteAll(st, pages[..i]).outcome.Fail?
    ensures WriteAll(st, pages) == WriteAll(st, pages[..i])
    decreases |pages| - i
  {
    if i < |pages| {
      assert pages[..i + 1][..i] == pages[..i];
      WriteFailureStays(st, pages, i + 1);
    } else {
      assert pages[..i] == pages;
    }
  }

  /** No later page goes to the same output file. */
  predicate LastToItsFile(pages: seq<PageView>, j: int)
    requires 0 <= j < |pages|
  {
    forall l :: j < l < |pages| ==> pages[l].outPath != pages[j].outPath
  }

  predicate NoPageWrites(pages: seq<PageView>, q: Path) {
    forall j :: 0 <= j < |pages| ==> pages[j].outPath != q
  }

  lemma WriteAllStep(st: Store, pages: seq<PageView>)
    requires pages != [] && WriteAll(st, pages).outcome.Pass?
    ensures var init, last := pages[..|pages| - 1], pages[|pages| - 1];
      WriteAll(st, init).outcome.Pass?
      && WriteAll(st, pages).store
         == Store(WriteAll(st, init).store.files[last.outPath := last.html.GetOr("")], WriteAll(st, init).store.dirs)
  {
  }

  /** When every page has been written, each output file holds the HTML of
      the last page that goes to it, and the directories are unchanged. */
  lemma {:induction false} WriteAllLastWins(st: Store, pages: seq<PageView>)
    requires WriteAll(st, pages).outcome.Pass?
    ensures var s := WriteAll(st, pages).store;
      s.dirs == st.dirs
      && forall j :: 0 <= j < |pages| && LastToItsFile(pages, j) ==>
           pages[j].outPath in s.files && s.files[pages[j].outPath] == pages[j].html.GetOr("")
  {
    if pages != [] {
      var init, n := pages[..|pages| - 1], |pages| - 1;
      WriteAllStep(st, pages);
      WriteAllLastWins(st, init);
      var s := WriteAll(st, pages).store;
      forall j | 0 <= j < n && LastToItsFile(pages, j)
        ensures pages[j].outPath in s.files && s.files[pages[j].outPath] == pages[j].html.GetOr("")
      {
        assert init[j] == pages[j];
        assert LastToItsFile(init, j) by {
          forall l | j < l < |init| ensures init[l].outPath != init[j].outPath {
            assert init[l] == pages[l];
          }
        }
      }
    }
  }

  /** Writing the pages leaves every other file as it was and adds no file
      but the pages' output files. */
  lemma {:induction false} WriteAllKeepsOthers(st: Store, pages: seq<PageView>)
    requires WriteAll(st, pages).outcome.Pass?
    ensures var s := WriteAll(st, pages).store;
      (forall q :: q in st.files && NoPageWrites(pages, q) ==> q in s.files && s.files[q] == st.files[q])
      && (forall q :: q in s.files && NoPageWrites(pages, q) ==> q in st.files)
  {
    if pages != [] {
      var init := pages[..|pages| - 1];
      WriteAllStep(st, pages);
      WriteAllKeepsOthers(st, init);
      forall q | NoPageWrites(pages, q) ensures NoPageWrites(init, q) {
        forall j | 0 <= j < |init| ensures init[j].outPath != q {
          assert init[j] == pages[j];
        }
      }
    }
  }

  /** The output files of the pages. */
  function PagePaths(pages: seq<PageView>): set<Path> {
    set j | 0 <= j < |pages| :: pages[j].outPath
  }

  /** After writing the pages the files are those there were before and the
      pages' output files. */
  lemma {:induction false} WriteAllFiles(st: Store, pages: seq<PageView>)
    requires WriteAll(st, pages).outcome.Pass?
    ensures forall q :: q in WriteAll(st, pages).store.files <==> q in st.files || q in PagePaths(pages)
  {
    if pages != [] {
      var init := pages[..|pages| - 1];
      WriteAllStep(st, pages);
      WriteAllFiles(st, init);
      forall q ensures q in PagePaths(pages) <==> q in PagePaths(init) || q == pages[|pages| - 1].outPath {
        if q in PagePaths(init) {
          var j :| 0 <= j < |init| && init[j].outPath == q;
          assert pages[j] == init[j];
        }
        if q in PagePaths(pages) && q != pages[|pages| - 1].outPath {
          var j :| 0 <= j < |pages| && pages[j].outPath == q;
          assert init[j] == pages[j];
        }
      }
    }
  }

  /** The output stage: ClearOutOutputDirectory, CopyRawFiles (a missing
      raw-files directory fails when it is listed), then WritePage for every
      page. */
  function CommitOn(st: Store, outputs: Path, rawDir: Path, raw: Option<Tree>, pages: seq<PageView>): Run {
    var cleared := ClearRun(st, outputs);
    if cleared.outcome.Fail? then cleared
    else
      match raw
      case None => Run(cleared.store, Fail(DirectoryNotFound(FullName(rawDir))))
      case Some(tree) =>
        var copied := TreeOn(cleared.store, tree, outputs);
        if copied.outcome.Fail? then copied else WriteAll(copied.store, pages)
  }

  /** The output stage after ClearOutOutputDirectory succeeded: the raw
      files, then the pages. */
  lemma CommitAfterClear(st: Store, outputs: Path, rawDir: Path, raw: Option<Tree>, pages: seq<PageView>)
    requires ClearRun(st, outputs).outcome.Pass?
    ensures var cleared := ClearRun(st, outputs).store;
      CommitOn(st, outputs, rawDir, raw, pages) ==
        if raw.None? then Run(cleared, Fail(DirectoryNotFound(FullName(rawDir))))
        else if TreeOn(cleared, raw.value, outputs).outcome.Fail? then TreeOn(cleared, raw.value, outputs)
        else WriteAll(TreeOn(cleared, raw.value, outputs).store, pages)
  {
  }

  /** After a successful commit of pages bound for the output directory, the
      directory exists, every raw file is in its place below it unless a page
      went to the same path, and every page's HTML is in its output file
      unless a later page went there too. The directory holds no other file,
      whatever was in it before: the files below it are exactly the raw
      entries and the pages' output files. Every file outside it is as it
      was. */
  lemma CommitResult(st: Store, outputs: Path, rawDir: Path, tree: Tree, pages: seq<PageView>)
    requires Valid(st)
    requires forall j :: 0 <= j < |pages| ==> IsWithin(outputs, pages[j].outPath)
    requires CommitOn(st, outputs, rawDir, Some(tree), pages).outcome.Pass?
    ensures var s := CommitOn(st, outputs, rawDir, Some(tree), pages).store;
      var entries := TreeEntries(tree);
      DirectoryExists(s, outputs)
      && (forall k :: 0 <= k < |entries| && NoPageWrites(pages, outputs + entries[k].0) ==>
            outputs + entries[k].0 in s.files && s.files[outputs + entries[k].0] == entries[k].1)
      && (forall j :: 0 <= j < |pages| && LastToItsFile(pages, j) ==>
            pages[j].outPath in s.files && s.files[pages[j].outPath] == pages[j].html.GetOr(""))
      && (forall q :: IsWithin(outputs, q) ==> (q in s.files <==> q in EntryPaths(outputs, entries) + PagePaths(pages)))
      && (forall q :: q in st.files && !IsWithin(outputs, q) ==> q in s.files && s.files[q] == st.files[q])
  {
    ClearRunDeletesOnlyOnSuccess(st, outputs);
    ClearEmptiesDirectory(st, outputs);
    var cleared := ClearOn(st, outputs).value;
    TreeCopied(cleared, tree, outputs);
    var copied := TreeOn(cleared, tree, outputs).store;
    WriteAllLastWins(copied, pages);
    WriteAllKeepsOthers(copied, pages);
    WriteAllFiles(copied, pages);
    var s := WriteAll(copied, pages).store;
    var entries := TreeEntries(tree);
    assert DirectoryExists(copied, outputs);
    forall q | q in st.files && !IsWithin(outputs, q) ensures q in s.files && s.files[q] == st.files[q] {
      assert q in cleared.files && cleared.files[q] == st.files[q];
      assert q in copied.files && copied.files[q] == st.files[q];
      assert NoPageWrites(pages, q);
    }
    forall k | 0 <= k < |entries| && NoPageWrites(pages, outputs + entries[k].0)
      ensures outputs + entries[k].0 in s.files
    {
    }
    forall q | IsWithin(outputs, q) ensures q in s.files <==> q in EntryPaths(outputs, entries) + PagePaths(pages) {
      if q in EntryPaths(outputs, entries) {
        var k :| 0 <= k < |entries| && q == outputs + entries[k].0;
        assert q in copied.files;
      }
      if q in s.files && q !in PagePaths(pages) {
        assert q in copied.files && q !in cleared.files;
      }
    }
  }

  /** Outside the output directory a successful commit adds no file, and the
      only directories it adds are the ones above the output directory. */
  lemma CommitOutside(st: Store, outputs: Path, rawDir: Path, tree: Tree, pages: seq<PageView>)
    requires Valid(st)
    requires forall j :: 0 <= j < |pages| ==> IsWithin(outputs, pages[j].outPath)
    requires CommitOn(st, outputs, rawDir, Some(tree), pages).outcome.Pass?
    ensures var s := CommitOn(st, outputs, rawDir, Some(tree), pages).store;
      (forall q :: q in s.files && !IsWithin(outputs, q) ==> q in st.files)
      && (forall d :: !IsWithin(outputs, d) ==> (d in s.dirs <==> d in st.dirs || d in Prefixes(outputs)))
  {
    ClearRunDeletesOnlyOnSuccess(st, outputs);
    ClearedStore(st, outputs);
    var cleared := ClearOn(st, outputs).value;
    TreeCopied(cleared, tree, outputs);
    TreeEntryPathsBelow(tree, outputs);
    var copied := TreeOn(cleared, tree, outputs).store;
    WriteAllFiles(copied, pages);
    WriteAllLastWins(copied, pages);
    var s := WriteAll(copied, pages).store;
    forall q | q in s.files && !IsWithin(outputs, q) ensures q in st.files {
      assert q !in PagePaths(pages);
      assert q in copied.files;
      assert q in cleared.files;
    }
    forall d | !IsWithin(outputs, d) ensures d in s.dirs <==> d in st.dirs || d in Prefixes(outputs) {
      if d in st.dirs {
        assert d in cleared.dirs;
      }
    }
  }

  // ---------------------------------------------------------------- the pipeline

  /** What ProcessPages returns or throws, and the file system it leaves. */
  datatype PipelineRun = PipelineRun(pages: Result<seq<PageView>, Error>, store: Store)

  /** The page stages: one empty result per discovered file, loaded,
      reordered with the index pages last, then rendered. */
  function Prepared(st: Store, found: seq<Path>, outputs: Path, env: Env): Result<seq<PageView>, Error> {
    match LoadAll(st, EmptyResults(found, outputs), env.libs)
    case Failure(e) => Failure(e)
    case Success(loaded) =>
      var ordered := Partitioned(loaded, IsIndexView);
      Rendered(ordered, |ordered|, env)
  }

  /** The markdown files of the input directory are discovered (an absent
      directory fails the enumeration) and go through the page stages; only
      then is the output committed. */
  function Pipeline(st: Store, listing: seq<Path>, max: int, inputs: Path, outputs: Path,
                    rawDir: Path, raw: Option<Tree>, env: Env): PipelineRun
  {
    if !DirectoryExists(st, inputs) then PipelineRun(Failure(DirectoryNotFound(FullName(inputs))), st)
    else
      match Prepared(st, Discovered(listing, max), outputs, env)
      case Failure(e) => PipelineRun(Failure(e), st)
      case Success(rendered) =>
        var run := CommitOn(st, outputs, rawDir, raw, rendered);
        PipelineRun(if run.outcome.Fail? then Failure(run.outcome.error) else Success(rendered), run.store)
  }

  /** The file system is touched only once every page has been loaded and
      rendered: a loading or rendering failure leaves it as it was. */
  lemma OutputUntouchedOnPageFailure(st: Store, listing: seq<Path>, max: int, inputs: Path, outputs: Path,
                                     rawDir: Path, raw: Option<Tree>, env: Env)
    ensures var initial := EmptyResults(Discovered(listing, max), outputs);
      Pipeline(st, listing, max, inputs, outputs, rawDir, raw, env).store != st ==>
        DirectoryExists(st, inputs) && LoadAll(st, initial, env.libs).Success?
        && var ordered := Partitioned(LoadAll(st, initial, env.libs).value, IsIndexView);
           Rendered(ordered, |ordered|, env).Success?
  {
  }

  /** The stages of a successful run. */
  lemma PipelineStages(st: Store, listing: seq<Path>, max: int, inputs: Path, outputs: Path,
                       rawDir: Path, raw: Option<Tree>, env: Env)
    requires Pipeline(st, listing, max, inputs, outputs, rawDir, raw, env).pages.Success?
    ensures var run := Pipeline(st, listing, max, inputs, outputs, rawDir, raw, env);
      var initial := EmptyResults(Discovered(listing, max), outputs);
      LoadAll(st, initial, env.libs).Success?
      && var ordered := Partitioned(LoadAll(st, initial, env.libs).value, IsIndexView);
         Rendered(ordered, |ordered|, env).Success?
         && run.pages.value == Rendered(ordered, |ordered|, env).value
         && CommitOn(st, outputs, rawDir, raw, run.pages.value) == Run(run.store, Pass)
  {
  }

  /** Rendering a reordered list keeps one page per loaded page, each
      with HTML, the index pages after all the others. */
  lemma RenderedOrdered(loaded: seq<PageView>, env: Env)
    requires var ordered := Partitioned(loaded, IsIndexView); Rendered(ordered, |ordered|, env).Success?
    ensures var ordered := Partitioned(loaded, IsIndexView);
      var pages := Rendered(ordered, |ordered|, env).value;
      |pages| == |loaded|
      && FlaggedLast(pages, IsIndexView)
      && (forall j :: 0 <= j < |pages| ==> pages[j].html.Some? && pages[j].model.Some? && pages[j] == ordered[j].(html := pages[j].html))
  {
    var ordered := Partitioned(loaded, IsIndexView);
    PartitionIsPermutation(loaded, IsIndexView);
    PartitionPutsFlaggedLast(loaded, IsIndexView);
    RenderedShape(ordered, |ordered|, env);
    var pages := Rendered(ordered, |ordered|, env).value;
    assert forall j :: 0 <= j < |pages| ==> IsIndexView(pages[j]) == IsIndexView(ordered[j]);
  }

  /** Loading and rendering the discovered files gives one page per file,
      each with HTML and its output path, the index pages after all the
      others. */
  lemma DiscoveredPagesRendered(st: Store, found: seq<Path>, outputs: Path, env: Env)
    requires LoadAll(st, EmptyResults(found, outputs), env.libs).Success?
    requires var ordered := Partitioned(LoadAll(st, EmptyResults(found, outputs), env.libs).value, IsIndexView);
      Rendered(ordered, |ordered|, env).Success?
    ensures var ordered := Partitioned(LoadAll(st, EmptyResults(found, outputs), env.libs).value, IsIndexView);
      var pages := Rendered(ordered, |ordered|, env).value;
      |pages| == |found|
      && FlaggedLast(pages, IsIndexView)
      && (forall j :: 0 <= j < |pages| ==> pages[j].html.Some? && pages[j].model.Some? && pages[j].inPath in found
                                           && pages[j].outPath == OutputPathFor(pages[j].inPath, outputs))
      && (forall p :: p in found ==> exists j :: 0 <= j < |pages| && pages[j].inPath == p)
  {
    var loaded := LoadAll(st, EmptyResults(found, outputs), env.libs).value;
    var ordered := Partitioned(loaded, IsIndexView);
    var pages := Rendered(ordered, |ordered|, env).value;
    LoadedPaths(st, found, outputs, env.libs);
    RenderedOrdered(loaded, env);
    PartitionSameElements(loaded, IsIndexView);
    forall j | 0 <= j < |pages|
      ensures pages[j].inPath in found && pages[j].outPath == OutputPathFor(pages[j].inPath, outputs)
    {
      assert pages[j].inPath == ordered[j].inPath && pages[j].outPath == ordered[j].outPath;
      assert ordered[j] in loaded;
    }
    forall p | p in found ensures exists j :: 0 <= j < |pages| && pages[j].inPath == p {
      var k :| 0 <= k < |found| && found[k] == p;
      assert loaded[k] in ordered;
      var j :| 0 <= j < |ordered| && ordered[j] == loaded[k];
      assert pages[j].inPath == p;
    }
  }

  /** Loading keeps each page's paths: one loaded page per file, in order. */
  lemma LoadedPaths(st: Store, found: seq<Path>, outputs: Path, libs: Libraries)
    requires LoadAll(st, EmptyResults(found, outputs), libs).Success?
    ensures var loaded := LoadAll(st, EmptyResults(found, outputs), libs).value;
      |loaded| == |found|
      && (forall k :: 0 <= k < |loaded| ==> loaded[k].inPath == found[k])
      && (forall x :: x in loaded ==> x.inPath in found && x.outPath == OutputPathFor(x.inPath, outputs))
  {
    var initial := EmptyResults(found, outputs);
    var loaded := LoadAll(st, initial, libs).value;
    LoadAllValues(st, initial, libs);
    forall x | x in loaded ensures x.inPath in found && x.outPath == OutputPathFor(x.inPath, outputs) {
      var k :| 0 <= k < |loaded| && loaded[k] == x;
      assert loaded[k] == LoadedAt(st, initial, libs, k);
    }
  }

  /** A successful run returns one rendered page per discovered file, each
      with HTML and with its output path, the index pages after all the
      others. */
  lemma PipelinePages(st: Store, listing: seq<Path>, max: int, inputs: Path, outputs: Path,
                      rawDir: Path, raw: Option<Tree>, env: Env)
    requires Pipeline(st, listing, max, inputs, outputs, rawDir, raw, env).pages.Success?
    ensures var pages := Pipeline(st, listing, max, inputs, outputs, rawDir, raw, env).pages.value;
      var found := Discovered(listing, max);
      |pages| == |found|
      && FlaggedLast(pages, IsIndexView)
      && (forall j :: 0 <= j < |pages| ==> pages[j].html.Some? && pages[j].model.Some? && pages[j].inPath in found
                                           && pages[j].outPath == OutputPathFor(pages[j].inPath, outputs))
      && (forall p :: p in found ==> exists j :: 0 <= j < |pages| && pages[j].inPath == p)
  {
    PipelineStages(st, listing, max, inputs, outputs, rawDir, raw, env);
    DiscoveredPagesRendered(st, Discovered(listing, max), outputs, env);
  }

  /** A successful run leaves the output directory holding exactly the raw
      files and the pages' output files: each raw file in its place unless a
      page has the same path, each page's HTML in its output file unless a
      later page has the same file name. Outside the output directory
      nothing changes. */
  lemma PipelineOutput(st: Store, listing: seq<Path>, max: int, inputs: Path, outputs: Path,
                       rawDir: Path, raw: Option<Tree>, env: Env)
    requires Valid(st)
    requires Pipeline(st, listing, max, inputs, outputs, rawDir, raw, env).pages.Success?
    ensures var run := Pipeline(st, listing, max, inputs, outputs, rawDir, raw, env);
      var pages := run.pages.value;
      raw.Some? && DirectoryExists(run.store, outputs)
      && var entries := TreeEntries(raw.value);
      (forall k :: 0 <= k < |entries| && NoPageWrites(pages, outputs + entries[k].0) ==>
         outputs + entries[k].0 in run.store.files && run.store.files[outputs + entries[k].0] == entries[k].1)
      && (forall j :: 0 <= j < |pages| && LastToItsFile(pages, j) ==>
            pages[j].outPath in run.store.files && Some(run.store.files[pages[j].outPath]) == pages[j].html)
      && (forall q :: IsWithin(outputs, q) ==> (q in run.store.files <==> q in EntryPaths(outputs, entries) + PagePaths(pages)))
      && (forall q :: q in st.files && !IsWithin(outputs, q) ==> q in run.store.files && run.store.files[q] == st.files[q])
  {
    PipelineStages(st, listing, max, inputs, outputs, rawDir, raw, env);
    PipelinePages(st, listing, max, inputs, outputs, rawDir, raw, env);
    var run := Pipeline(st, listing, max, inputs, outputs, rawDir, raw, env);
    CommitResult(st, outputs, rawDir, raw.value, run.pages.value);
  }

  /** With a page count of zero or less nothing is discovered, and a
      successful run leaves the output directory holding exactly the raw
      files, each with its text. */
  lemma PipelineWithoutPages(st: Store, listing: seq<Path>, max: int, inputs: Path, outputs: Path,
                             rawDir: Path, raw: Option<Tree>, env: Env)
    requires Valid(st) && max <= 0
    requires Pipeline(st, listing, max, inputs, outputs, rawDir, raw, env).pages.Success?
    ensures var run := Pipeline(st, listing, max, inputs, outputs, rawDir, raw, env);
      run.pages.value == [] && raw.Some?
      && var entries := TreeEntries(raw.value);
      (forall k :: 0 <= k < |entries| ==>
         outputs + entries[k].0 in run.store.files && run.store.files[outputs + entries[k].0] == entries[k].1)
      && (forall q :: IsWithin(outputs, q) ==> (q in run.store.files <==> q in EntryPaths(outputs, entries)))
  {
    DiscoveryCount(listing, max);
    PipelinePages(st, listing, max, inputs, outputs, rawDir, raw, env);
    PipelineOutput(st, listing, max, inputs, outputs, rawDir, raw, env);
    assert PagePaths([]) == {};
  }

  /** Loading reads only the pages' input files: two stores that agree on
      them load alike. */
  lemma {:induction false} LoadAllSameInputs(a: Store, b: Store, pages: seq<PageView>, libs: Libraries)
    requires forall k :: 0 <= k < |pages| ==> ReadOn(a, pages[k].inPath) == ReadOn(b, pages[k].inPath)
    ensures LoadAll(a, pages, libs) == LoadAll(b, pages, libs)
  {
    if pages != [] {
      var init, last := pages[..|pages| - 1], pages[|pages| - 1];
      forall k | 0 <= k < |init| ensures ReadOn(a, init[k].inPath) == ReadOn(b, init[k].inPath) {
        assert init[k] == pages[k];
      }
      LoadAllSameInputs(a, b, init, libs);
      assert ReadOn(a, last.inPath) == ReadOn(b, last.inPath);
      assert LoadedModel(a, last.inPath, last.outPath, libs) == LoadedModel(b, last.inPath, last.outPath, libs);
    }
  }

  /** Running the pipeline a second time, with the same listing, raw tree and
      engines, on the file system a successful run left, returns the same
      pages and leaves the file system exactly as it is: clearing the output
      directory removes whatever the first run put there. The input
      directory and the discovered files lie outside the output directory,
      and the output directory lies outside the input directory, so the
      second run's listing of the input directory is the first one's. */
  lemma PipelineRerun(st: Store, listing: seq<Path>, max: int, inputs: Path, outputs: Path,
                      rawDir: Path, raw: Option<Tree>, env: Env)
    requires Valid(st)
    requires Pipeline(st, listing, max, inputs, outputs, rawDir, raw, env).pages.Success?
    requires !IsWithin(outputs, inputs) && !IsWithin(inputs, outputs)
    requires forall k :: 0 <= k < |Discovered(listing, max)| ==> !IsWithin(outputs, Discovered(listing, max)[k])
    ensures var run := Pipeline(st, listing, max, inputs, outputs, rawDir, raw, env);
      Pipeline(run.store, listing, max, inputs, outputs, rawDir, raw, env) == run
  {
    var run := Pipeline(st, listing, max, inputs, outputs, rawDir, raw, env);
    var s, pages, found := run.store, run.pages.value, Discovered(listing, max);
    PipelineStages(st, listing, max, inputs, outputs, rawDir, raw, env);
    PipelinePages(st, listing, max, inputs, outputs, rawDir, raw, env);
    PipelineOutput(st, listing, max, inputs, outputs, rawDir, raw, env);
    CommitOutside(st, outputs, rawDir, raw.value, pages);
    assert DirectoryExists(s, inputs);
    var initial := EmptyResults(found, outputs);
    forall k | 0 <= k < |initial| ensures ReadOn(s, initial[k].inPath) == ReadOn(st, initial[k].inPath) {
      assert initial[k].inPath == found[k];
    }
    LoadAllSameInputs(s, st, initial, env.libs);
    assert Prepared(s, found, outputs, env) == Prepared(st, found, outputs, env);
    ClearRunDeletesOnlyOnSuccess(st, outputs);
    assert DeleteTreeOn(s, outputs).files == DeleteTreeOn(st, outputs).files;
    assert DeleteTreeOn(s, outputs).dirs + Prefixes(outputs) == DeleteTreeOn(st, outputs).dirs + Prefixes(outputs);
    ClearSameOutside(st, s, outputs);
    assert CommitOn(s, outputs, rawDir, raw, pages) == CommitOn(st, outputs, rawDir, raw, pages);
  }
}
