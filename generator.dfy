/** SiteGenerator: loads the site and theme configurations, then turns the
    markdown pages of the site into HTML files in the output directory. The
    class works on a FileSystem object and on the foreign engines given as
    `Libraries`; each of its methods is proved against the value-level
    pipeline of module Pages. */
module Generator {

  import opened Wrappers
  import opened Exceptions
  import opened Paths
  import opened YamlUtils
  import opened Configs
  import opened FileSystems
  import opened Partition
  import opened Pages

  // ---------------------------------------------------------------- configuration

  function NotFoundMessage(what: string, p: Path): string {
    what + " not found: " + FullName(p)
  }

  /** CheckExistence on a DirectoryInfo. */
  function CheckDirectoryExistence(st: Store, d: Path, what: string): (r: Outcome<Error>)
    ensures r.Pass? <==> DirectoryExists(st, d)
    ensures r.Fail? ==> r.error == DirectoryNotFound(NotFoundMessage(what, d))
  {
    if DirectoryExists(st, d) then Pass else Fail(DirectoryNotFound(NotFoundMessage(what, d)))
  }

  /** CheckExistence on a FileInfo: a directory of that name is no file. */
  function CheckFileExistence(st: Store, f: Path, what: string): (r: Outcome<Error>)
    ensures r.Pass? <==> f in st.files
    ensures r.Fail? ==> r.error == FileNotFound(NotFoundMessage(what, f))
  {
    if f in st.files then Pass else Fail(FileNotFound(NotFoundMessage(what, f)))
  }

  /** LoadSiteConfig on values: both existence checks, then the site file is
      decoded; a file that decodes to null faults when its ConfigFile is set.
      The result records the file it was read from. */
  function SiteSettings(st: Store, config: MiesConfig, libs: Libraries): Result<SiteView, Error> {
    match CheckDirectoryExistence(st, config.siteDirectory, "Site directory")
    case Fail(e) => Failure(e)
    case Pass =>
      match CheckFileExistence(st, config.siteConfig, "Site config file")
      case Fail(e) => Failure(e)
      case Pass =>
        match ParseYaml(config.siteConfig, st.files[config.siteConfig], libs.deserialize, libs.bindSite)
        case Failure(e) => Failure(e)
        case Success(None) => Failure(NullReference)
        case Success(Some(f)) => Success(PopulatedSite(DefaultSite, f).(configFile := Some(config.siteConfig)))
  }

  /** FindThemeConfig: the theme file named in site.yaml, taken relative to
      the site directory given on the command line; no name is a null
      argument to Path.Combine. */
  function FindThemeConfig(siteDirectory: Path, site: SiteView): Result<Path, Error> {
    match site.themeFile
    case None => Failure(ArgumentNull)
    case Some(theme) => Success(Resolve(siteDirectory, theme))
  }

  /** LoadThemeConfig on values. */
  function ThemeSettings(st: Store, themeFile: Path, libs: Libraries): Result<ThemeView, Error> {
    match CheckFileExistence(st, themeFile, "Theme config file")
    case Fail(e) => Failure(e)
    case Pass =>
      match ParseYaml(themeFile, st.files[themeFile], libs.deserialize, libs.bindTheme)
      case Failure(e) => Failure(e)
      case Success(None) => Failure(NullReference)
      case Success(Some(f)) => Success(ThemeView(f.templatesDir, f.rawFilesDir, Some(themeFile)))
  }

  /** A directory named in a configuration file, taken relative to the
      directory holding that file. */
  function BesideConfig(configFile: Option<Path>, name: Option<string>): Result<Path, Error> {
    match configFile
    case None => Failure(NullReference)
    case Some(f) =>
      match name
      case None => Failure(ArgumentNull)
      case Some(n) => Success(Resolve(DirectoryName(f), n))
  }

  /** GetSiteDirectory. */
  function SiteDirectory(site: SiteView, name: Option<string>): Result<Path, Error> {
    BesideConfig(site.configFile, name)
  }

  /** GetThemeDirectory. */
  function ThemeDirectory(theme: ThemeView, name: Option<string>): Result<Path, Error> {
    BesideConfig(theme.configFile, name)
  }

  /** What the constructor settles: both configurations and the templates
      directory the rendering engine is built for. */
  datatype Settings = Settings(site: SiteView, theme: ThemeView, templatesDir: Path)

  /** The constructor on values: site configuration, theme file, theme
      configuration, templates directory, each failure ending construction. */
  function Startup(st: Store, config: MiesConfig, libs: Libraries): Result<Settings, Error> {
    match SiteSettings(st, config, libs)
    case Failure(e) => Failure(e)
    case Success(site) =>
      match FindThemeConfig(config.siteDirectory, site)
      case Failure(e) => Failure(e)
      case Success(themeFile) =>
        match ThemeSettings(st, themeFile, libs)
        case Failure(e) => Failure(e)
        case Success(theme) =>
          match ThemeDirectory(theme, theme.templatesDir)
          case Failure(e) => Failure(e)
          case Success(templates) => Success(Settings(site, theme, templates))
  }

  /** The three directories ProcessPages works with. */
  datatype Dirs = Dirs(rawFiles: Path, inputs: Path, outputs: Path)

  /** The first lines of ProcessPages: raw files from the theme, pages and
      outputs from the site, in that order. */
  function PipelineDirectories(site: SiteView, theme: ThemeView): Result<Dirs, Error> {
    match ThemeDirectory(theme, theme.rawFilesDir)
    case Failure(e) => Failure(e)
    case Success(raw) =>
      match SiteDirectory(site, site.pagesDir)
      case Failure(e) => Failure(e)
      case Success(inputs) =>
        match SiteDirectory(site, site.outputsDir)
        case Failure(e) => Failure(e)
        case Success(outputs) => Success(Dirs(raw, inputs, outputs))
  }

  /** The site is checked before its file: with both missing, the error
      names the site directory. A decoded site file keeps its own keys, gets
      the defaults for the rest, and remembers where it was read from. */
  lemma SiteSettingsOrder(st: Store, config: MiesConfig, libs: Libraries)
    ensures !DirectoryExists(st, config.siteDirectory) ==>
      SiteSettings(st, config, libs) == Failure(DirectoryNotFound(NotFoundMessage("Site directory", config.siteDirectory)))
    ensures DirectoryExists(st, config.siteDirectory) && config.siteConfig !in st.files ==>
      SiteSettings(st, config, libs) == Failure(FileNotFound(NotFoundMessage("Site config file", config.siteConfig)))
    ensures SiteSettings(st, config, libs).Success? <==>
      DirectoryExists(st, config.siteDirectory) && config.siteConfig in st.files
      && ParseYaml(config.siteConfig, st.files[config.siteConfig], libs.deserialize, libs.bindSite).Success?
      && ParseYaml(config.siteConfig, st.files[config.siteConfig], libs.deserialize, libs.bindSite).value.Some?
    ensures SiteSettings(st, config, libs).Success? ==>
      var f := ParseYaml(config.siteConfig, st.files[config.siteConfig], libs.deserialize, libs.bindSite).value.value;
      var site := SiteSettings(st, config, libs).value;
      site.configFile == Some(config.siteConfig)
      && (f.generator.None? ==> site.generator == Some(GeneratorName))
      && (f.generator.Some? ==> site.generator == f.generator.value)
      && (f.recentPosts.None? ==> site.recentPosts == 0)
      && (f.pagesDir.Some? ==> site.pagesDir == f.pagesDir)
      && (f.outputsDir.Some? ==> site.outputsDir == f.outputsDir)
      && site.themeFile == f.themeFile
  {
  }

  /** The theme file is found beside the site directory given on the command
      line, the site's directories beside the site file, the theme's
      directories beside the theme file. */
  lemma StartupLocations(st: Store, config: MiesConfig, libs: Libraries)
    requires Startup(st, config, libs).Success?
    ensures var s := Startup(st, config, libs).value;
      s.site.configFile == Some(config.siteConfig)
      && s.site.themeFile.Some?
      && s.theme.configFile == Some(Resolve(config.siteDirectory, s.site.themeFile.value))
      && s.theme.configFile.value in st.files
      && s.theme.templatesDir.Some?
      && s.templatesDir == Resolve(DirectoryName(s.theme.configFile.value), s.theme.templatesDir.value)
  {
  }

  /** With plain names, the theme file sits directly in the site directory
      and the templates directly beside the theme file. */
  lemma StartupPlainNames(st: Store, config: MiesConfig, libs: Libraries)
    requires Startup(st, config, libs).Success?
    requires IsPlainName(Startup(st, config, libs).value.site.themeFile.value)
    requires IsPlainName(Startup(st, config, libs).value.theme.templatesDir.value)
    ensures var s := Startup(st, config, libs).value;
      var themeFile := Combine(config.siteDirectory, s.site.themeFile.value);
      s.theme.configFile == Some(themeFile)
      && s.templatesDir == Combine(config.siteDirectory, s.theme.templatesDir.value)
  {
    var s := Startup(st, config, libs).value;
    ResolvePlain(config.siteDirectory, s.site.themeFile.value);
    var themeFile := Combine(config.siteDirectory, s.site.themeFile.value);
    ResolvePlain(DirectoryName(themeFile), s.theme.templatesDir.value);
  }

  /** Every directory name must be present: a missing one is a null argument
      to Path.Combine, reported for the first missing name in the order raw
      files, pages, outputs. With plain names, all three sit beside their
      configuration files. */
  lemma DirectoriesBesideConfigs(site: SiteView, theme: ThemeView)
    requires site.configFile.Some? && theme.configFile.Some?
    ensures PipelineDirectories(site, theme).Success? <==>
      theme.rawFilesDir.Some? && site.pagesDir.Some? && site.outputsDir.Some?
    ensures PipelineDirectories(site, theme).Failure? ==> PipelineDirectories(site, theme).error == ArgumentNull
    ensures (PipelineDirectories(site, theme).Success?
      && IsPlainName(theme.rawFilesDir.value) && IsPlainName(site.pagesDir.value) && IsPlainName(site.outputsDir.value)) ==>
      PipelineDirectories(site, theme).value ==
        Dirs(Combine(DirectoryName(theme.configFile.value), theme.rawFilesDir.value),
             Combine(DirectoryName(site.configFile.value), site.pagesDir.value),
             Combine(DirectoryName(site.configFile.value), site.outputsDir.value))
  {
    if PipelineDirectories(site, theme).Success? && IsPlainName(theme.rawFilesDir.value)
       && IsPlainName(site.pagesDir.value) && IsPlainName(site.outputsDir.value) {
      ResolvePlain(DirectoryName(theme.configFile.value), theme.rawFilesDir.value);
      ResolvePlain(DirectoryName(site.configFile.value), site.pagesDir.value);
      ResolvePlain(DirectoryName(site.configFile.value), site.outputsDir.value);
    }
  }

  // ---------------------------------------------------------------- page objects

  /** The values held by a list of page objects. */
  function Views(pages: seq<PageResult>): (r: seq<PageView>)
    reads pages
    ensures |r| == |pages|
    ensures forall k :: 0 <= k < |pages| ==> r[k] == pages[k].View()
  {
    if pages == [] then [] else [pages[0].View()] + Views(pages[1..])
  }

  lemma ViewsAppend(a: seq<PageResult>, b: seq<PageResult>)
    ensures Views(a + b) == Views(a) + Views(b)
  {
    assert forall k :: 0 <= k < |a + b| ==> Views(a + b)[k] == (Views(a) + Views(b))[k];
  }

  /** The models of a list of page objects. */
  function Models(pages: seq<PageResult>): (r: seq<PageModel?>)
    reads pages`Model
    ensures |r| == |pages|
    ensures forall k :: 0 <= k < |pages| ==> r[k] == pages[k].Model
  {
    if pages == [] then [] else [pages[0].Model] + Models(pages[1..])
  }

  /** The values of page objects, given one by one. */
  lemma ViewsAre(pages: seq<PageResult>, vs: seq<PageView>)
    requires |vs| == |pages|
    requires forall k :: 0 <= k < |pages| ==> pages[k].View() == vs[k]
    ensures Views(pages) == vs
  {
  }

  /** Filtering the objects on a key that agrees with IsIndexView filters
      their values. */
  lemma {:induction false} ViewsSelect(pages: seq<PageResult>, key: PageResult -> bool, flag: bool)
    requires forall k :: 0 <= k < |pages| ==> key(pages[k]) == IsIndexView(pages[k].View())
    ensures Views(Select(pages, key, flag)) == Select(Views(pages), IsIndexView, flag)
  {
    if pages != [] {
      assert forall k :: 0 <= k < |pages[1..]| ==> pages[1..][k] == pages[k + 1];
      ViewsSelect(pages[1..], key, flag);
      assert Views(pages)[1..] == Views(pages[1..]);
      assert Views(pages)[0] == pages[0].View();
      if key(pages[0]) == flag {
        ViewsAppend([pages[0]], Select(pages[1..], key, flag));
      }
    }
  }

  /** PrepareEmptyPageResult. */
  method PrepareEmptyPageResult(inPath: Path, outputs: Path) returns (r: PageResult)
    ensures fresh(r) && r.Model == null
    ensures r.View() == EmptyResult(inPath, outputs)
  {
    var outfile := ChangeExtension(Name(inPath), ".html");
    r := new PageResult(inPath, Combine(outputs, outfile));
  }

  /** The `Select(...).ToList()` of ProcessPages: one new, distinct page
      object per discovered file. */
  method PrepareEmptyPageResults(found: seq<Path>, outputs: Path) returns (pages: seq<PageResult>)
    ensures |pages| == |found|
    ensures forall k :: 0 <= k < |pages| ==> pages[k].View() == EmptyResult(found[k], outputs)
    ensures Distinct(pages)
    ensures forall p :: p in pages ==> fresh(p) && p.Model == null
  {
    pages := [];
    var i := 0;
    while i < |found|
      invariant 0 <= i <= |found| && |pages| == i
      invariant forall k :: 0 <= k < i ==> pages[k].View() == EmptyResult(found[k], outputs)
      invariant forall p :: p in pages ==> fresh(p) && p.Model == null
      invariant Distinct(pages)
    {
      var page := PrepareEmptyPageResult(found[i], outputs);
      DistinctSnoc(pages, page);
      ghost var prev := pages;
      pages := pages + [page];
      forall k | 0 <= k <= i ensures pages[k].View() == EmptyResult(found[k], outputs) {
        if k < i {
          assert pages[k] == prev[k];
        }
      }
      i := i + 1;
    }
  }

  /** The two groups of MoveIndexPagesToEnd: the pages whose model is an
      index after the others, both in their earlier order. A page without a
      model counts as no index. */
  method IndexPagesLast(pages: seq<PageResult>) returns (ordered: seq<PageResult>)
    ensures Views(ordered) == Partitioned(Views(pages), IsIndexView)
    ensures multiset(ordered) == multiset(pages)
    ensures forall p :: p in ordered <==> p in pages
    ensures Distinct(pages) ==> Distinct(ordered)
  {
    var flags := map p | p in pages :: p.Model != null && p.Model.IsIndex;
    var key := (p: PageResult) => p in flags && flags[p];
    var indices := Select(pages, key, true);
    var others := Select(pages, key, false);
    ViewsSelect(pages, key, true);
    ViewsSelect(pages, key, false);
    ViewsAppend(others, indices);
    PartitionIsPermutation(pages, key);
    PartitionSameElements(pages, key);
    if Distinct(pages) {
      PartitionDistinct(pages, key);
    }
    ordered := others + indices;
  }

  // ---------------------------------------------------------------- the generator

  class SiteGenerator {
    const Config: MiesConfig
    const Site: SiteConfig
    const Theme: ThemeConfig
    /** The directory the rendering engine looks up templates in. */
    const TemplatesDir: Path
    const Libs: Libraries
    const Fs: FileSystem

    constructor Init(config: MiesConfig, site: SiteConfig, theme: ThemeConfig, templatesDir: Path,
                     libs: Libraries, fs: FileSystem)
      ensures Config == config && Site == site && Theme == theme && TemplatesDir == templatesDir
      ensures Libs == libs && Fs == fs
    {
      Config, Site, Theme, TemplatesDir := config, site, theme, templatesDir;
      Libs, Fs := libs, fs;
    }

    /** What rendering depends on besides the pages. */
    function RenderEnv(): Env
      reads Site
    {
      Env(Libs, TemplatesDir, Site.View())
    }

    /** A loaded page refers to the generator's site configuration and to
        the list of all pages. */
    predicate Shares(m: PageModel?, all: AllPages) {
      m != null && m.Site == Site && m.All == all
    }

    /** Every page of the list is loaded and shares the list. */
    predicate Linked(all: AllPages)
      reads all, all.Pages
    {
      SharedBy(Models(all.Pages), all)
    }

    predicate SharedBy(models: seq<PageModel?>, all: AllPages) {
      forall k :: 0 <= k < |models| ==> Shares(models[k], all)
    }

    /** Every model present shares the list; pages may lack one. */
    predicate SharedWhereLoaded(models: seq<PageModel?>, all: AllPages) {
      forall k :: 0 <= k < |models| && models[k] != null ==> Shares(models[k], all)
    }

    /** LoadSiteConfig. */
    static method LoadSiteConfig(fs: FileSystem, config: MiesConfig, libs: Libraries) returns (r: Result<SiteConfig, Error>)
      ensures var spec := SiteSettings(fs.State(), config, libs);
        (r.Success? <==> spec.Success?) && (r.Failure? ==> r.error == spec.error)
        && (r.Success? ==> fresh(r.value) && r.value.View() == spec.value)
    {
      var check := CheckDirectoryExistence(fs.State(), config.siteDirectory, "Site directory");
      if check.Fail? {
        return Failure(check.error);
      }
      check := CheckFileExistence(fs.State(), config.siteConfig, "Site config file");
      if check.Fail? {
        return Failure(check.error);
      }
      var contents := fs.ReadAllText(config.siteConfig);
      var result := ParseYaml(config.siteConfig, contents.value, libs.deserialize, libs.bindSite);
      if result.Failure? {
        return Failure(result.error);
      }
      if result.value.None? {
        return Failure(NullReference);
      }
      var site := new SiteConfig.Bound(result.value.value);
      site.ConfigFile := Some(config.siteConfig);
      r := Success(site);
    }

    /** LoadThemeConfig. */
    static method LoadThemeConfig(fs: FileSystem, themeYaml: Path, libs: Libraries) returns (r: Result<ThemeConfig, Error>)
      ensures var spec := ThemeSettings(fs.State(), themeYaml, libs);
        (r.Success? <==> spec.Success?) && (r.Failure? ==> r.error == spec.error)
        && (r.Success? ==> fresh(r.value) && r.value.View() == spec.value)
    {
      var check := CheckFileExistence(fs.State(), themeYaml, "Theme config file");
      if check.Fail? {
        return Failure(check.error);
      }
      var contents := fs.ReadAllText(themeYaml);
      var result := ParseYaml(themeYaml, contents.value, libs.deserialize, libs.bindTheme);
      if result.Failure? {
        return Failure(result.error);
      }
      if result.value.None? {
        return Failure(NullReference);
      }
      var theme := new ThemeConfig.Bound(result.value.value);
      theme.ConfigFile := Some(themeYaml);
      r := Success(theme);
    }

    /** The constructor, which throws when a configuration cannot be loaded;
        the generator is returned once both configurations and the templates
        directory are settled. */
    static method Create(config: MiesConfig, fs: FileSystem, libs: Libraries) returns (r: Result<SiteGenerator, Error>)
      ensures var spec := Startup(fs.State(), config, libs);
        (r.Success? <==> spec.Success?) && (r.Failure? ==> r.error == spec.error)
        && (r.Success? ==>
              fresh(r.value) && fresh(r.value.Site) && fresh(r.value.Theme)
              && r.value.Config == config && r.value.Fs == fs && r.value.Libs == libs
              && r.value.Site.View() == spec.value.site && r.value.Theme.View() == spec.value.theme
              && r.value.TemplatesDir == spec.value.templatesDir)
    {
      var site := LoadSiteConfig(fs, config, libs);
      if site.Failure? {
        return Failure(site.error);
      }
      var themeFile := FindThemeConfig(config.siteDirectory, site.value.View());
      if themeFile.Failure? {
        return Failure(themeFile.error);
      }
      var theme := LoadThemeConfig(fs, themeFile.value, libs);
      if theme.Failure? {
        return Failure(theme.error);
      }
      var templatesDir := ThemeDirectory(theme.value.View(), theme.value.TemplatesDir);
      if templatesDir.Failure? {
        return Failure(templatesDir.error);
      }
      var g := new SiteGenerator.Init(config, site.value, theme.value, templatesDir.value, libs, fs);
      r := Success(g);
    }

    /** LoadPage for the page at index `k` of the list: read the file,
        convert it, decode its header into a new model that refers to the
        site configuration and to the list; a null header leaves the page
        without a model. */
    method LoadPage(page: PageResult, all: AllPages, ghost k: int) returns (r: Outcome<Error>)
      requires 0 <= k < |all.Pages| && all.Pages[k] == page && Distinct(all.Pages)
      modifies page
      ensures var spec := LoadedOne(Fs.State(), old(Views(all.Pages)), k, Libs);
        (r.Pass? <==> spec.Success?) && (r.Fail? ==> r.error == spec.error)
        && (r.Pass? ==> Views(all.Pages) == spec.value && Shares(page.Model, all))
    {
      ghost var before := Views(all.Pages);
      assert page.View() == before[k];
      var markdown := Fs.ReadAllText(page.InPath);
      if markdown.Failure? {
        return Fail(markdown.error);
      }
      var contents := Libs.toHtml(markdown.value);
      if contents.None? {
        return Fail(ConverterFault);
      }
      var header := ExtractYamlHeader(page.InPath, markdown.value, Libs.deserialize, Libs.bindPage);
      if header.Failure? {
        return Fail(header.error);
      }
      if header.value.None? {
        page.Model := null;
        return Fail(NullReference);
      }
      var model := new PageModel.Loaded(header.value.value, markdown.value, contents.value, Name(page.OutPath), Site, all);
      DistinctOthers(all.Pages, k);
      page.Model := model;
      ViewsAre(all.Pages, before[k := page.View()]);
      r := Pass;
    }

    /** The loading loop of ProcessPages. */
    method LoadPages(all: AllPages) returns (r: Outcome<Error>)
      requires Distinct(all.Pages)
      modifies set p | p in all.Pages
      ensures var spec := LoadAll(Fs.State(), old(Views(all.Pages)), Libs);
        (r.Pass? <==> spec.Success?) && (r.Fail? ==> r.error == spec.error)
        && (r.Pass? ==> Views(all.Pages) == spec.value
                        && forall k :: 0 <= k < |all.Pages| ==> Shares(all.Pages[k].Model, all))
    {
      ghost var before := Views(all.Pages);
      var i := 0;
      while i < |all.Pages|
        invariant 0 <= i <= |all.Pages|
        invariant LoadedInPlace(Fs.State(), before, i, Libs) == Success(Views(all.Pages))
        invariant forall k :: 0 <= k < i ==> Shares(all.Pages[k].Model, all)
      {
        ghost var done := Views(all.Pages);
        DistinctOthers(all.Pages, i);
        r := LoadPage(all.Pages[i], all, i);
        if r.Fail? {
          assert LoadedInPlace(Fs.State(), before, i + 1, Libs) == LoadedOne(Fs.State(), done, i, Libs);
          LoadedInPlaceOutcome(Fs.State(), before, i + 1, Libs);
          return;
        }
        forall k | 0 <= k <= i ensures Shares(all.Pages[k].Model, all) {
          if k < i {
            assert all.Pages[k] != all.Pages[i];
          }
        }
        i := i + 1;
      }
      LoadedInPlaceOutcome(Fs.State(), before, i, Libs);
      r := Pass;
    }

    /** MoveIndexPagesToEnd: the pages whose model is an index go last, both
        groups in their earlier order. */
    method MoveIndexPagesToEnd(all: AllPages)
      modifies all
      ensures Views(all.Pages) == Partitioned(old(Views(all.Pages)), IsIndexView)
      ensures multiset(all.Pages) == multiset(old(all.Pages))
      ensures forall p :: p in all.Pages <==> p in old(all.Pages)
      ensures Distinct(old(all.Pages)) ==> Distinct(all.Pages)
      ensures old(Linked(all)) ==> Linked(all)
    {
      ghost var linked := Linked(all);
      ghost var before := all.Pages;
      var ordered := IndexPagesLast(all.Pages);
      ghost var views := Views(ordered);
      // results.Clear(), then AddRange(others) and AddRange(indices)
      all.Pages := ordered;
      assert Views(all.Pages) == views;
      if linked {
        LinkedByMembers(all, before);
      }
    }

    /** A list holding only pages of a linked list is linked too. */
    lemma LinkedByMembers(all: AllPages, before: seq<PageResult>)
      requires SharedBy(Models(before), all)
      requires forall p :: p in all.Pages ==> p in before
      ensures Linked(all)
    {
      forall k | 0 <= k < |all.Pages| ensures Shares(Models(all.Pages)[k], all) {
        assert all.Pages[k] in before;
        var j :| 0 <= j < |before| && before[j] == all.Pages[k];
        assert Models(before)[j] == all.Pages[k].Model;
      }
    }

    /** RenderPage for the page at index `k` of the list: the engine sees the
        page's model, the site configuration and the list as it stands. */
    method RenderPage(page: PageResult, all: AllPages, ghost k: int) returns (r: Outcome<Error>)
      requires 0 <= k < |all.Pages| && all.Pages[k] == page && Distinct(all.Pages)
      requires page.Model != null ==> Shares(page.Model, all)
      modifies page`HtmlOutput
      ensures var spec := RenderedOne(old(Views(all.Pages)), k, RenderEnv());
        (r.Pass? <==> spec.Success?) && (r.Fail? ==> r.error == spec.error)
        && (r.Pass? ==> Views(all.Pages) == spec.value)
      ensures RenderEnv() == old(RenderEnv())
    {
      ghost var before := Views(all.Pages);
      var name := Name(page.InPath);
      if page.Model == null {
        assert RenderedOne(before, k, RenderEnv()) == Failure(InvalidOperation(RenderMessage(name)));
        return Fail(InvalidOperation(RenderMessage(name)));
      }
      var model := page.Model;
      var input := RenderInput(TemplatesDir, model.Template, model.View(), model.Site.View(), Views(model.All.Pages));
      assert input == RenderInputFor(before, k, RenderEnv());
      var html := Libs.render(input);
      if html.None? {
        assert RenderedOne(before, k, RenderEnv()) == Failure(InvalidOperation(RenderMessage(name)));
        return Fail(InvalidOperation(RenderMessage(name)));
      }
      ghost var after := before[k := before[k].(html := html)];
      assert RenderedOne(before, k, RenderEnv()) == Success(after);
      DistinctOthers(all.Pages, k);
      page.HtmlOutput := html;
      ViewsAre(all.Pages, after);
      r := Pass;
    }

    /** The rendering loop of ProcessPages. */
    method RenderPages(all: AllPages) returns (r: Outcome<Error>)
      requires Distinct(all.Pages)
      requires SharedWhereLoaded(Models(all.Pages), all)
      modifies all.Pages`HtmlOutput
      ensures var spec := Rendered(old(Views(all.Pages)), |all.Pages|, RenderEnv());
        (r.Pass? <==> spec.Success?) && (r.Fail? ==> r.error == spec.error)
        && (r.Pass? ==> Views(all.Pages) == spec.value)
      ensures Models(all.Pages) == old(Models(all.Pages))
    {
      ghost var before := Views(all.Pages);
      ghost var env := RenderEnv();
      var i := 0;
      while i < |all.Pages|
        invariant 0 <= i <= |all.Pages|
        invariant RenderEnv() == env
        invariant Rendered(before, i, env) == Success(Views(all.Pages))
      {
        RenderStep(before, i, env, Views(all.Pages));
        r := RenderPage(all.Pages[i], all, i);
        if r.Fail? {
          return;
        }
        i := i + 1;
      }
      r := Pass;
    }

    /** ClearOutOutputDirectory: delete the directory if it exists, then
        create it. */
    method ClearOutOutputDirectory(outdir: Path) returns (r: Outcome<Error>)
      modifies Fs
      ensures Run(Fs.State(), r) == ClearRun(old(Fs.State()), outdir)
    {
      if DirectoryExists(Fs.State(), outdir) {
        Fs.DeleteDirectory(outdir);
      }
      r := Fs.CreateDirectory(outdir);
    }

    /** The file loop of CopyRawFilesHelper: each file of the directory
        copied into `target`, counted. */
    method CopyFilesInto(files: seq<RawFile>, target: Path) returns (r: Result<nat, Error>)
      modifies Fs
      ensures Run(Fs.State(), if r.Success? then Pass else Fail(r.error)) == CopyFilesOn(old(Fs.State()), files, target)
      ensures r.Success? ==> r.value == |files|
    {
      ghost var initial := Fs.State();
      var count := 0;
      var i := 0;
      while i < |files|
        invariant 0 <= i <= |files| && count == i
        invariant CopyFilesOn(initial, files[..i], target) == Run(Fs.State(), Pass)
      {
        var file := files[i];
        var o := Fs.Copy(Combine(target, file.name), file.text);
        assert files[..i + 1][..i] == files[..i];
        if o.Fail? {
          CopyFilesFailureStays(initial, files, i + 1, target);
          return Failure(o.error);
        }
        count := count + 1;
        i := i + 1;
      }
      assert files[..i] == files;
      r := Success(count);
    }

    /** CopyRawFilesHelper: the files of the directory, then each
        subdirectory, created under the target and copied into; the result
        counts the files copied. */
    method CopyRawFilesHelper(source: Tree, target: Path) returns (r: Result<nat, Error>)
      modifies Fs
      decreases source, 1
      ensures Run(Fs.State(), if r.Success? then Pass else Fail(r.error)) == TreeOn(old(Fs.State()), source, target)
      ensures r.Success? ==> r.value == |TreeEntries(source)|
    {
      var files := CopyFilesInto(source.files, target);
      if files.Failure? {
        return Failure(files.error);
      }
      var subdirs := CopySubdirsInto(source, target);
      if subdirs.Failure? {
        return Failure(subdirs.error);
      }
      r := Success(files.value + subdirs.value);
    }

    /** The subdirectory loop of CopyRawFilesHelper: each subdirectory
        created under `target` and copied into, its files counted. */
    method CopySubdirsInto(source: Tree, target: Path) returns (r: Result<nat, Error>)
      modifies Fs
      decreases source, 0
      ensures Run(Fs.State(), if r.Success? then Pass else Fail(r.error)) == SubdirsOn(old(Fs.State()), source, |source.subdirs|, target)
      ensures r.Success? ==> r.value == |SubdirEntries(source, |source.subdirs|)|
    {
      ghost var initial := Fs.State();
      var count := 0;
      var k := 0;
      while k < |source.subdirs|
        invariant 0 <= k <= |source.subdirs|
        invariant SubdirsOn(initial, source, k, target) == Run(Fs.State(), Pass)
        invariant count == |SubdirEntries(source, k)|
      {
        var sub := source.subdirs[k];
        var dir := Combine(target, sub.name);
        ghost var mid := Fs.State();
        var o := Fs.CreateDirectory(dir);
        if o.Fail? {
          SubdirsFailureStays(initial, source, k + 1, target);
          return Failure(o.error);
        }
        SubdirsNext(initial, source, k, target, mid, Fs.State());
        var n := CopyRawFilesHelper(sub.tree, dir);
        if n.Failure? {
          SubdirsFailureStays(initial, source, k + 1, target);
          return Failure(n.error);
        }
        count := count + n.value;
        k := k + 1;
      }
      r := Success(count);
    }

    /** CopyRawFiles: an absent raw-files directory cannot be listed. */
    method CopyRawFiles(raw: Option<Tree>, rawDir: Path, output: Path) returns (r: Outcome<Error>)
      modifies Fs
      ensures raw.None? ==> r == Fail(DirectoryNotFound(FullName(rawDir))) && Fs.State() == old(Fs.State())
      ensures raw.Some? ==> Run(Fs.State(), r) == TreeOn(old(Fs.State()), raw.value, output)
    {
      if raw.None? {
        return Fail(DirectoryNotFound(FullName(rawDir)));
      }
      var count := CopyRawFilesHelper(raw.value, output);
      r := if count.Success? then Pass else Fail(count.error);
    }

    /** WritePage: a null HTML text writes an empty file. */
    method WritePage(page: PageResult) returns (r: Outcome<Error>)
      modifies Fs
      ensures Run(Fs.State(), r) == Attempt(old(Fs.State()), WriteOn(old(Fs.State()), page.OutPath, page.HtmlOutput.GetOr("")))
    {
      r := Fs.WriteAllText(page.OutPath, page.HtmlOutput.GetOr(""));
    }

    /** The writing loop of ProcessPages. */
    method WritePages(all: AllPages) returns (r: Outcome<Error>)
      modifies Fs
      ensures Run(Fs.State(), r) == WriteAll(old(Fs.State()), Views(all.Pages))
    {
      ghost var initial := Fs.State();
      ghost var pages := Views(all.Pages);
      var i := 0;
      while i < |all.Pages|
        invariant 0 <= i <= |all.Pages|
        invariant WriteAll(initial, pages[..i]) == Run(Fs.State(), Pass)
        invariant Views(all.Pages) == pages
      {
        assert all.Pages[i].View() == pages[i];
        WriteStep(initial, pages, i);
        r := WritePage(all.Pages[i]);
        if r.Fail? {
          WriteFailureStays(initial, pages, i + 1);
          assert Run(Fs.State(), r) == WriteAll(initial, pages);
          return;
        }
        i := i + 1;
      }
      assert pages[..i] == pages;
      r := Pass;
    }

    /** The loading stage of ProcessPages: one new page object per
        discovered file, each loaded and sharing the new list. */
    method LoadFoundPages(found: seq<Path>, outputs: Path) returns (r: Result<AllPages, Error>)
      ensures var spec := LoadAll(Fs.State(), EmptyResults(found, outputs), Libs);
        (r.Success? <==> spec.Success?) && (r.Failure? ==> r.error == spec.error)
        && (r.Success? ==> fresh(r.value) && Views(r.value.Pages) == spec.value && Distinct(r.value.Pages)
                           && Linked(r.value) && forall p :: p in r.value.Pages ==> fresh(p))
    {
      var pages := PrepareEmptyPageResults(found, outputs);
      var all := new AllPages();
      all.Pages := pages;
      ViewsAre(all.Pages, EmptyResults(found, outputs));
      var o := LoadPages(all);
      if o.Fail? {
        assert LoadAll(Fs.State(), EmptyResults(found, outputs), Libs) == Failure(o.error);
        return Failure(o.error);
      }
      assert SharedBy(Models(all.Pages), all);
      r := Success(all);
    }

    /** The middle stages of ProcessPages: index pages moved last, then
        every page rendered in the new order. */
    method OrderAndRender(all: AllPages) returns (r: Outcome<Error>)
      requires Distinct(all.Pages) && Linked(all)
      modifies all, set p | p in all.Pages
      ensures var ordered := Partitioned(old(Views(all.Pages)), IsIndexView);
        var spec := Rendered(ordered, |ordered|, RenderEnv());
        (r.Pass? <==> spec.Success?) && (r.Fail? ==> r.error == spec.error)
        && (r.Pass? ==> Views(all.Pages) == spec.value && Linked(all))
    {
      ghost var ordered := Partitioned(Views(all.Pages), IsIndexView);
      ghost var env := RenderEnv();
      MoveIndexPagesToEnd(all);
      assert Views(all.Pages) == ordered && RenderEnv() == env;
      assert SharedWhereLoaded(Models(all.Pages), all);
      r := RenderPages(all);
    }

    /** The page stages of ProcessPages: the pages loaded, reordered and
        rendered; the file system is only read. */
    method PreparePages(found: seq<Path>, outputs: Path) returns (r: Result<AllPages, Error>)
      ensures var spec := Prepared(Fs.State(), found, outputs, RenderEnv());
        (r.Success? <==> spec.Success?) && (r.Failure? ==> r.error == spec.error)
        && (r.Success? ==> fresh(r.value) && Views(r.value.Pages) == spec.value
                           && Linked(r.value))
    {
      ghost var spec := Prepared(Fs.State(), found, outputs, RenderEnv());
      var loading := LoadFoundPages(found, outputs);
      if loading.Failure? {
        assert spec == Failure(loading.error);
        return Failure(loading.error);
      }
      var all := loading.value;
      ghost var loaded := Views(all.Pages);
      ghost var ordered := Partitioned(loaded, IsIndexView);
      assert spec == Rendered(ordered, |ordered|, RenderEnv()) by {
        PartitionIsPermutation(loaded, IsIndexView);
      }
      var o := OrderAndRender(all);
      if o.Fail? {
        assert spec == Failure(o.error);
        return Failure(o.error);
      }
      assert spec == Success(Views(all.Pages));
      r := Success(all);
    }

    /** The output stages of ProcessPages: clear the output directory, copy
        the raw files, write the pages. */
    method CommitPages(all: AllPages, outputs: Path, rawDir: Path, raw: Option<Tree>) returns (r: Outcome<Error>)
      modifies Fs
      ensures Run(Fs.State(), r) == CommitOn(old(Fs.State()), outputs, rawDir, raw, Views(all.Pages))
    {
      r := ClearOutOutputDirectory(outputs);
      if r.Fail? {
        return;
      }
      CommitAfterClear(old(Fs.State()), outputs, rawDir, raw, Views(all.Pages));
      r := CopyRawFiles(raw, rawDir, outputs);
      if r.Fail? {
        return;
      }
      r := WritePages(all);
    }

    /** What ProcessPages returns and leaves on the file system, for a
        directory listing `listing` of the input directory and a raw-files
        directory holding `raw`. */
    function Processing(st: Store, max: int, listing: seq<Path>, raw: Option<Tree>): PipelineRun
      reads Site, Theme
    {
      match PipelineDirectories(Site.View(), Theme.View())
      case Failure(e) => PipelineRun(Failure(e), st)
      case Success(d) => Pipeline(st, listing, max, d.inputs, d.outputs, d.rawFiles, raw, RenderEnv())
    }

    /** The stages of ProcessPages once its three directories are known:
        discovery, the page stages, then the output stages. */
    method RunPipeline(max: int, listing: seq<Path>, inputs: Path, outputs: Path, rawDir: Path, raw: Option<Tree>)
      returns (r: Result<AllPages, Error>)
      modifies Fs
      ensures var run := Pipeline(old(Fs.State()), listing, max, inputs, outputs, rawDir, raw, RenderEnv());
        Fs.State() == run.store
        && (r.Success? <==> run.pages.Success?) && (r.Failure? ==> r.error == run.pages.error)
        && (r.Success? ==> fresh(r.value) && Views(r.value.Pages) == run.pages.value
                           && Linked(r.value))
    {
      ghost var st, env := Fs.State(), RenderEnv();
      ghost var run := Pipeline(st, listing, max, inputs, outputs, rawDir, raw, env);
      if !DirectoryExists(Fs.State(), inputs) {
        return Failure(DirectoryNotFound(FullName(inputs)));
      }
      var found := Discovered(listing, max);
      var prepared := PreparePages(found, outputs);
      assert RenderEnv() == env;
      if prepared.Failure? {
        assert run == PipelineRun(Failure(prepared.error), st);
        return Failure(prepared.error);
      }
      var all := prepared.value;
      ghost var rendered := Views(all.Pages);
      assert Prepared(st, found, outputs, env) == Success(rendered);
      var o := CommitPages(all, outputs, rawDir, raw);
      assert RenderEnv() == env && Views(all.Pages) == rendered;
      if o.Fail? {
        assert run == PipelineRun(Failure(o.error), Fs.State());
        return Failure(o.error);
      }
      assert run == PipelineRun(Success(rendered), Fs.State());
      r := Success(all);
    }

    /** ProcessPages: the whole pipeline; the list it returns holds the
        rendered pages, each sharing the site configuration and the list. */
    method ProcessPages(max: int, listing: seq<Path>, raw: Option<Tree>) returns (r: Result<AllPages, Error>)
      modifies Fs
      ensures var run := Processing(old(Fs.State()), max, listing, raw);
        Fs.State() == run.store
        && (r.Success? <==> run.pages.Success?) && (r.Failure? ==> r.error == run.pages.error)
        && (r.Success? ==> fresh(r.value) && Views(r.value.Pages) == run.pages.value
                           && Linked(r.value))
    {
      ghost var run := Processing(Fs.State(), max, listing, raw);
      var rawfiles := ThemeDirectory(Theme.View(), Theme.RawFilesDir);
      if rawfiles.Failure? {
        assert run == PipelineRun(Failure(rawfiles.error), Fs.State());
        return Failure(rawfiles.error);
      }
      var inputs := SiteDirectory(Site.View(), Site.PagesDir);
      if inputs.Failure? {
        assert run == PipelineRun(Failure(inputs.error), Fs.State());
        return Failure(inputs.error);
      }
      var outputs := SiteDirectory(Site.View(), Site.OutputsDir);
      if outputs.Failure? {
        assert run == PipelineRun(Failure(outputs.error), Fs.State());
        return Failure(outputs.error);
      }
      assert run == Pipeline(Fs.State(), listing, max, inputs.value, outputs.value, rawfiles.value, raw, RenderEnv());
      r := RunPipeline(max, listing, inputs.value, outputs.value, rawfiles.value, raw);
    }

    /** Execute: runs the pipeline and answers 0. */
    method Execute(max: int, listing: seq<Path>, raw: Option<Tree>) returns (r: Result<int, Error>)
      modifies Fs
      ensures var run := Processing(old(Fs.State()), max, listing, raw);
        Fs.State() == run.store
        && (r.Success? <==> run.pages.Success?) && (r.Failure? ==> r.error == run.pages.error)
        && (r.Success? ==> r.value == 0)
    {
      var all := ProcessPages(max, listing, raw);
      if all.Failure? {
        return Failure(all.error);
      }
      r := Success(0);
    }
  }
}
