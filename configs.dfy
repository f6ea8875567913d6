/** The generator's records: the command-line parameters, the site and theme
    configurations decoded from YAML, and the per-page records the pipeline
    fills in stage by stage. A C# null string is `None`, a null reference
    `null`. */
module Configs {

  import opened Wrappers
  import opened Paths

  /** The default of SiteConfig.Generator. */
  const GeneratorName := "MIES"

  /** MiesConfig: the site file and the site directory given on the command line. */
  datatype MiesConfig = MiesConfig(siteConfig: Path, siteDirectory: Path)

  /** A DateTime value; its calendar arithmetic is not part of this model. */
  datatype Timestamp = Timestamp(ticks: int)

  /** A key that is present replaces the field; an absent key keeps it. */
  function Override<T>(current: T, key: Option<T>): (r: T)
    ensures key.Some? ==> r == key.value
    ensures key.None? ==> r == current
  {
    match key
    case Some(v) => v
    case None => current
  }

  /** The same for a string field, which may hold null. */
  function OverrideText(current: Option<string>, key: Option<string>): (r: Option<string>)
    ensures key.Some? ==> r == key
    ensures key.None? ==> r == current
  {
    if key.Some? then key else current
  }

  /** The SiteConfig keys the binder recognised in site.yaml, each with the
      value it sets; an absent key is `None`. Generator is the one string
      field whose default is not null, so for it a key given a null value
      (`generator: ~`), `Some(None)`, differs from an absent key; for the
      other string fields both leave null. */
  datatype SiteFields = SiteFields(
    pagesDir: Option<string>, templatesDir: Option<string>,
    rawFilesDir: Option<string>, outputsDir: Option<string>,
    generator: Option<Option<string>>, title: Option<string>, author: Option<string>,
    description: Option<string>, recentPosts: Option<int>, themeFile: Option<string>)

  /** The contents of a SiteConfig object. */
  datatype SiteView = SiteView(
    pagesDir: Option<string>, templatesDir: Option<string>,
    rawFilesDir: Option<string>, outputsDir: Option<string>,
    generator: Option<string>, title: Option<string>, author: Option<string>,
    description: Option<string>, recentPosts: int, themeFile: Option<string>,
    configFile: Option<Path>)

  /** A freshly constructed SiteConfig: every string null except Generator,
      RecentPosts zero, no config file yet. */
  const DefaultSite := SiteView(None, None, None, None, Some(GeneratorName), None, None, None, 0, None, None)

  /** The binder's effect on a SiteConfig: each recognised key overrides its
      field; the others, and ConfigFile, which no key sets, keep their values. */
  function PopulatedSite(v: SiteView, f: SiteFields): SiteView {
    SiteView(OverrideText(v.pagesDir, f.pagesDir), OverrideText(v.templatesDir, f.templatesDir),
             OverrideText(v.rawFilesDir, f.rawFilesDir), OverrideText(v.outputsDir, f.outputsDir),
             Override(v.generator, f.generator), OverrideText(v.title, f.title),
             OverrideText(v.author, f.author), OverrideText(v.description, f.description),
             Override(v.recentPosts, f.recentPosts), OverrideText(v.themeFile, f.themeFile),
             v.configFile)
  }

  /** A site.yaml that does not name the generator leaves it "MIES"; one
      that names it, null included, sets it. No key sets the config file. */
  lemma GeneratorDefault(f: SiteFields)
    ensures f.generator.None? ==> PopulatedSite(DefaultSite, f).generator == Some(GeneratorName)
    ensures f.generator.Some? ==> PopulatedSite(DefaultSite, f).generator == f.generator.value
    ensures PopulatedSite(DefaultSite, f).configFile.None?
  {
  }

  /** SiteConfig (site.yaml). ThemeFile and ConfigFile are the two members
      the generator uses beyond the declared ones: the theme's file name, read
      from site.yaml, and the file the configuration was read from. */
  class SiteConfig {
    var PagesDir: Option<string>
    var TemplatesDir: Option<string>
    var RawFilesDir: Option<string>
    var OutputsDir: Option<string>
    var Generator: Option<string>
    var Title: Option<string>
    var Author: Option<string>
    var Description: Option<string>
    var RecentPosts: int
    var ThemeFile: Option<string>
    var ConfigFile: Option<Path>

    function View(): SiteView
      reads this
    {
      SiteView(PagesDir, TemplatesDir, RawFilesDir, OutputsDir, Generator, Title,
               Author, Description, RecentPosts, ThemeFile, ConfigFile)
    }

    /** `new SiteConfig()`. */
    constructor ()
      ensures View() == DefaultSite
    {
      PagesDir, TemplatesDir, RawFilesDir, OutputsDir := None, None, None, None;
      Generator := Some(GeneratorName);
      Title, Author, Description := None, None, None;
      RecentPosts, ThemeFile, ConfigFile := 0, None, None;
    }

    /** The object the binder builds: a default SiteConfig with the keys of
        site.yaml assigned. */
    constructor Bound(f: SiteFields)
      ensures View() == PopulatedSite(DefaultSite, f)
    {
      PagesDir, TemplatesDir := f.pagesDir, f.templatesDir;
      RawFilesDir, OutputsDir := f.rawFilesDir, f.outputsDir;
      Generator := Override(Some(GeneratorName), f.generator);
      Title, Author, Description := f.title, f.author, f.description;
      RecentPosts := Override(0, f.recentPosts);
      ThemeFile, ConfigFile := f.themeFile, None;
    }
  }

  /** The ThemeConfig keys recognised in the theme's YAML file. */
  datatype ThemeFields = ThemeFields(templatesDir: Option<string>, rawFilesDir: Option<string>)

  datatype ThemeView = ThemeView(templatesDir: Option<string>, rawFilesDir: Option<string>, configFile: Option<Path>)

  /** ThemeConfig, declared outside the modelled files; modelled from its
      use: two directory names and the file it was read from. */
  class ThemeConfig {
    var TemplatesDir: Option<string>
    var RawFilesDir: Option<string>
    var ConfigFile: Option<Path>

    function View(): ThemeView
      reads this
    {
      ThemeView(TemplatesDir, RawFilesDir, ConfigFile)
    }

    constructor Bound(f: ThemeFields)
      ensures View() == ThemeView(f.templatesDir, f.rawFilesDir, None)
    {
      TemplatesDir, RawFilesDir, ConfigFile := f.templatesDir, f.rawFilesDir, None;
    }
  }

  /** The PageModel fields read from a page's YAML header, as the binder
      delivers them (an absent key leaves null or false). */
  datatype PageHeader = PageHeader(
    pageTitle: Option<string>, pageDesc: Option<string>, date: Option<Timestamp>,
    isBlogPost: bool, isIndex: bool, template: Option<string>)

  /** The value fields of a PageModel: the header group and the runtime group. */
  datatype ModelView = ModelView(header: PageHeader, markdown: Option<string>,
                                 contents: Option<string>, pageLink: Option<string>)

  /** The value fields of a PageResult and of its model. */
  datatype PageView = PageView(inPath: Path, outPath: Path, model: Option<ModelView>, html: Option<string>)

  /** PageModel: the header group, decoded from the page's YAML header; the
      runtime group, the page's text, its HTML contents and its link; and the
      two shared references, to the site configuration and to the list of
      all pages. Nothing changes a model once the page is loaded. */
  class PageModel {
    const PageTitle: Option<string>
    const PageDesc: Option<string>
    const Date: Option<Timestamp>
    const IsBlogPost: bool
    const IsIndex: bool
    const Template: Option<string>

    const Markdown: Option<string>
    const Contents: Option<string>
    const PageLink: Option<string>

    const Site: SiteConfig?
    const All: AllPages?

    function Header(): PageHeader {
      PageHeader(PageTitle, PageDesc, Date, IsBlogPost, IsIndex, Template)
    }

    function View(): ModelView {
      ModelView(Header(), Markdown, Contents, PageLink)
    }

    /** The object the binder builds from a header, with the runtime group
        and the references filled in as LoadPage does. */
    constructor Loaded(h: PageHeader, markdown: string, contents: string, pageLink: string,
                       site: SiteConfig, all: AllPages)
      ensures View() == ModelView(h, Some(markdown), Some(contents), Some(pageLink))
      ensures Site == site && All == all
    {
      PageTitle, PageDesc, Date := h.pageTitle, h.pageDesc, h.date;
      IsBlogPost, IsIndex, Template := h.isBlogPost, h.isIndex, h.template;
      Markdown, Contents, PageLink := Some(markdown), Some(contents), Some(pageLink);
      Site, All := site, all;
    }
  }

  /** PageResult: where the page comes from and goes to, its model once
      loaded, its HTML once rendered. */
  class PageResult {
    var InPath: Path
    var OutPath: Path
    var Model: PageModel?
    var HtmlOutput: Option<string>

    function View(): PageView
      reads this
    {
      PageView(InPath, OutPath, if Model == null then None else Some(Model.View()), HtmlOutput)
    }

    /** `new PageResult { InPath = inPath, OutPath = outPath }`. */
    constructor (inPath: Path, outPath: Path)
      ensures View() == PageView(inPath, outPath, None, None)
      ensures Model == null
    {
      InPath, OutPath, Model, HtmlOutput := inPath, outPath, null, None;
    }
  }

  /** AllPages: the list every page model refers to. */
  class AllPages {
    var Pages: seq<PageResult>

    constructor ()
      ensures Pages == []
    {
      Pages := [];
    }
  }
}
