# Mies static-site generator: a verified model

Mies turns a directory of markdown pages into a static web site. A site
directory holds `site.yaml`, which names the pages, outputs and theme. The
theme's YAML file names the templates and raw-files directories. Each page
begins with a YAML header between two `---` lines.

`SiteGenerator` runs these stages in order:

1. It loads the two configurations. Existence checks guard the loading, and
   each directory is resolved beside the file that names it.
2. It discovers at most `max` markdown files.
3. It makes an empty page result for each file. The output name is the file
   name with `.html` in place of its extension.
4. It loads every page: the file is read, converted to HTML, and its header
   is decoded into a page model. Each model refers to the shared site
   configuration and to the shared list of all pages.
5. It moves the index pages to the end with a stable partition.
6. It renders every page in the new order through its template.
7. Only then does it touch the output. It deletes and recreates the output
   directory, copies the theme's raw files recursively, counting them, and
   writes every page.

The model has one module per concern.

- `Wrappers` and `Exceptions`: Option, Result and Outcome. The
  .NET exceptions become values.
- `Paths`: paths as component sequences, `Path.Combine`,
  `Path.ChangeExtension`, the `*.md` pattern, and relative-name resolution.
- `Strings`: `String.Split` on `'\r'` and `'\n'`,
  `IsNullOrWhiteSpace`, ordinal `StartsWith`, and lines joined by
  `AppendLine`.
- `YamlUtils`: the header extractor (`ExtractHeaderText`, a loop proved
  against the function `HeaderText`), the two-stage `ParseYaml`, and
  `ExtractYamlHeader`.
- `Configs`: `MiesConfig`, `SiteConfig` with its defaults, `ThemeConfig`,
  `PageModel`, `PageResult` and `AllPages`, as classes with value views.
- `Partition`: the stable two-way partition behind `MoveIndexPagesToEnd`,
  and distinctness of sequences.
- `FileSystems`: an in-memory store of files and directories. It has the
  System.IO operations the generator calls, as a `FileSystem` class whose
  methods are proved against pure functions. It also has the raw-files
  directory as a tree and the recursive copy over it.
- `Pages`: the page pipeline on values.
  - `Discovered` gives the files found.
  - `LoadAll` loads the pages; `LoadedInPlace` is loading as the loop does
    it.
  - `Partitioned` reorders them, and `Rendered` renders them.
  - `CommitOn` gives the output.
  - `Prepared` and `Pipeline` combine these into the whole run.
- `Generator`: the configuration stage on values (`SiteSettings`,
  `ThemeSettings`, `Startup`, `PipelineDirectories`) and the class
  `SiteGenerator`. Every method of the class works on page objects and on the
  `FileSystem` object, and is proved against the value pipeline.

The specification functions (`HeaderText`, `ParseYaml`, `LoadAll`,
`Rendered`, `WriteAll`, `TreeOn`, `CommitOn`, `Pipeline`, `SiteSettings`,
`Startup`) say what each stage returns or throws. The lemmas prove what the
source promises about them.

Some behaviour of the code is easy to misread; the model follows the code:

- Load failures propagate unchanged. They are not wrapped in a page-load
  error.
- The header block ends at the first later line that merely begins with
  `---`, which need not be the same line as the opening one.
- The header text is the non-blank lines between the two delimiters, each
  followed by a line terminator. It is not the exact text between them.
- A page with no non-blank line faults on a null reference. It does not
  report a missing header.

## Model

| member | source | states |
|---|---|---|
| Configs.SiteConfig.constructor | Mies/Configs.cs:21-31 | a new SiteConfig has every string field null except Generator, which is "MIES", and RecentPosts 0 |
| Configs.SiteConfig.Bound | Mies/Configs.cs:21-31 | the decoded site.yaml is the default SiteConfig with each present key overriding its field; a generator key with a null value sets Generator to null |
| Configs.GeneratorDefault | Mies/Configs.cs:28 | a site.yaml without a generator key leaves Generator "MIES"; one with the key sets it to the key's value, null included; no config file yet |
| Configs.ThemeConfig.Bound | Mies/Generator.cs:86-87 | the decoded theme file holds its two directory names and no config file yet |
| Configs.PageModel.Loaded | Mies/Configs.cs:38-57 | a loaded model keeps the header group as decoded, sets the runtime group, and refers to the given site and list |
| Configs.PageResult.constructor | Mies/Configs.cs:63-69 | a new page result holds its two paths, no model and no HTML |
| Configs.AllPages.constructor | Mies/Configs.cs:77-80 | a new AllPages has an empty page list |
| Paths.Combine | Mies/Generator.cs:134 | joining a name to a directory gives a path named by it, inside the directory, one component longer |
| Paths.LastDot | Mies/Generator.cs:133 | the position found holds the last '.' of the name; no position means the name has no '.' |
| Paths.MarkdownNameToHtml | Mies/Generator.cs:133 | `stem.md` matches `*.md` and its extension changes to `stem.html`, whatever dots the stem holds |
| Paths.ResolvePlain | Mies/Generator.cs:53-57 | a plain name resolves to the component joined to the directory |
| Paths.ResolveAppend | Mies/Generator.cs:53-57 | resolving `a/b` resolves `b` from where `a` leads |
| Paths.ResolveParent | Mies/Generator.cs:53-57 | `../name` resolves against the parent directory |
| Strings.SplitPieces | Mies/YamlUtils.cs:29 | splitting gives one piece more than there are line breaks, no piece holds a break, and the pieces joined are the text without breaks |
| Strings.CrLfLeavesEmptyPiece | Mies/YamlUtils.cs:29 | each of '\r' and '\n' ends a piece, so "\r\n" leaves an empty piece |
| Strings.CrLfSameAsLf | Mies/YamlUtils.cs:29-30 | once blank lines are dropped, "\r\n" and "\n" give the same lines |
| Strings.NonBlankKeeps | Mies/YamlUtils.cs:30 | the filter keeps only non-blank lines of the input, and is empty exactly when every line is blank |
| Strings.NonBlankAppend | Mies/YamlUtils.cs:30 | dropping blank lines distributes over concatenation |
| Strings.SplitLines | Mies/YamlUtils.cs:29-30 | lines each ended by "\n", "\r\n" or "\r" split back into their non-blank lines |
| YamlUtils.BlockBeforeDelimiter | Mies/YamlUtils.cs:35-39 | a block found is the prefix before a delimiter line and holds none; none is found exactly when no line is a delimiter |
| YamlUtils.ScanHeader | Mies/YamlUtils.cs:32-40 | each scan outcome holds exactly in its case: no lines, first line no delimiter, no closing delimiter, or a block that runs from the second line up to the next delimiter |
| YamlUtils.ExtractHeaderText | Mies/YamlUtils.cs:28-43 | the loop returns what HeaderText gives, its error cases included |
| YamlUtils.HeaderTextErrors | Mies/YamlUtils.cs:32-42 | the null fault happens exactly when every line is blank; the missing-header error happens exactly when the first non-blank line is not a delimiter or no delimiter follows it |
| YamlUtils.HeaderTextLines | Mies/YamlUtils.cs:33-38 | the returned lines are exactly the non-blank lines strictly between the opening line and the next delimiter; none is blank or a delimiter |
| YamlUtils.HeaderRoundTrip | Mies/YamlUtils.cs:28-43 | a page written as delimiter, header lines, delimiter and body, with any of the three line terminators, yields its non-blank header lines |
| YamlUtils.EmptyHeader | Mies/YamlUtils.cs:37 | two delimiter lines with only blank lines between them yield the empty string |
| YamlUtils.DelimiterIsNotBlank | Mies/YamlUtils.cs:30-33 | a line beginning with "---" is never dropped as blank |
| YamlUtils.ParseYaml | Mies/YamlUtils.cs:50-67 | the parse error happens exactly when parsing fails or the top value is not a mapping; the header-variables error happens exactly when a mapping does not bind; a null document gives no record; otherwise the binder's record |
| YamlUtils.ParseStageFirst | Mies/YamlUtils.cs:53-58 | when the parse stage fails, the result fails whatever the binder does |
| YamlUtils.ExtractYamlHeader | Mies/YamlUtils.cs:16-19 | the method returns ParseYaml applied to the extracted header, or the extractor's error |
| YamlUtils.MissingHeaderBeforeParsing | Mies/YamlUtils.cs:16-19 | a page without a header block fails with the extractor's error, whatever the parser and binder would do |
| Partition.SelectKeeps | Mies/Generator.cs:144-145 | each selected page carries the selected flag and comes from the input |
| Partition.PartitionIsPermutation | Mies/Generator.cs:143-150 | the reordered list is a permutation of the input, of the same length |
| Partition.PartitionSameElements | Mies/Generator.cs:143-150 | the reordered list holds exactly the pages of the input |
| Partition.PartitionPutsFlaggedLast | Mies/Generator.cs:143-150 | after reordering, no index page precedes a non-index page |
| Partition.PartitionIsStable | Mies/Generator.cs:144-149 | the non-index pages keep their order, and so do the index pages |
| Partition.PartitionOfFlaggedLast | Mies/Generator.cs:144-149 | a list whose index pages already come last is left as it is |
| Partition.PartitionIdempotent | Mies/Generator.cs:144-149 | reordering twice equals reordering once |
| Partition.PartitionDistinct | Mies/Generator.cs:147-149 | reordering a list without repeated pages repeats none |
| FileSystems.ReadOn | Mies/Generator.cs:203 | reading succeeds exactly on an existing file and gives its text; otherwise a file-not-found error naming the path |
| FileSystems.FileSystem.ReadAllText | Mies/Generator.cs:203 | File.ReadAllText returns what ReadOn gives on the current store |
| FileSystems.FileSystem.DeleteDirectory | Mies/Generator.cs:161 | the directory and everything below it are removed |
| FileSystems.FileSystem.CreateDirectory | Mies/Generator.cs:165 | creates the directory and the missing ones above it; a file on the way fails and changes nothing |
| FileSystems.FileSystem.Copy | Mies/Generator.cs:181 | copies into an existing directory without overwriting; failures change nothing |
| FileSystems.FileSystem.WriteAllText | Mies/Generator.cs:233 | creates or overwrites the file in an existing directory; failures change nothing |
| FileSystems.CreateDirectoryKeepsValid | Mies/Generator.cs:165 | creating directories keeps a well formed store well formed |
| FileSystems.CopyKeepsValid | Mies/Generator.cs:181 | copying keeps a well formed store well formed |
| FileSystems.WriteKeepsValid | Mies/Generator.cs:233 | writing keeps a well formed store well formed |
| FileSystems.DeleteKeepsValid | Mies/Generator.cs:161 | deleting a tree keeps a well formed store well formed |
| FileSystems.ClearKeepsValid | Mies/Generator.cs:155-166 | clearing the output directory keeps a well formed store well formed |
| FileSystems.ClearRunDeletesOnlyOnSuccess | Mies/Generator.cs:155-166 | on a well formed store, a failed clearing deleted nothing |
| FileSystems.ClearEmptiesDirectory | Mies/Generator.cs:155-166 | clearing fails exactly when a file stands in the way; afterwards the directory exists and is empty whether or not it existed, and everything outside it is unchanged |
| FileSystems.CopyFilesFailureStays | Mies/Generator.cs:179-183 | a failed file copy ends the file loop with that failure |
| FileSystems.SubdirsFailureStays | Mies/Generator.cs:185-188 | a failure in one subdirectory ends the subdirectory loop with that failure |
| FileSystems.FilesCopied | Mies/Generator.cs:179-183 | a completed file loop puts every file at its name below the target, overwrites nothing, adds no directory and no file but those |
| FileSystems.SubdirsCopied | Mies/Generator.cs:185-188 | completed subdirectory copies reproduce each subdirectory's files below the target, add no other file, and add directories only below the target or above it |
| FileSystems.TreeCopied | Mies/Generator.cs:176-191 | a completed copy reproduces every file of the tree at the same relative position below the target, overwrites nothing, adds no file but those, and adds directories only below the target or above it |
| FileSystems.ClearedStore | Mies/Generator.cs:155-166 | a completed clearing of a well formed store keeps exactly what lies outside the directory and adds the directory and those above it |
| FileSystems.ClearSameOutside | Mies/Generator.cs:155-166 | clearing depends only on what lies outside the directory: a store holding it that agrees outside with a clearable one is cleared to the same store |
| Pages.Take | Mies/Generator.cs:105 | takes the first min(max, length) elements, none for max <= 0 |
| Pages.DiscoveryCount | Mies/Generator.cs:104-107 | discovery gives exactly min(max, number of markdown files) pages, none for max <= 0: the first markdown files of the listing, in its order |
| Pages.OutputPathFor | Mies/Generator.cs:132-135 | the output path lies directly in the output directory and is the input's name with its extension changed to ".html" |
| Pages.MarkdownOutputName | Mies/Generator.cs:132-135 | `dir/foo.md` goes to `outputs/foo.html`, whatever dir is |
| Pages.SameNameCollides | Mies/Generator.cs:132-135 | same-named pages in different subdirectories get the same output path |
| Pages.LoadedModelFields | Mies/Generator.cs:199-212 | loading succeeds exactly when the file exists, converts and has a non-null header; the model holds the decoded header, the file text, the conversion of the whole text and the output file name; a missing file or a converter failure reports its own error |
| Pages.PageLinkOfMarkdown | Mies/Configs.cs:52 | the page link of `foo.md` is `foo.html` |
| Pages.LoadAllSucceeds | Mies/Generator.cs:112 | loading the list succeeds exactly when every page loads |
| Pages.LoadAllValues | Mies/Generator.cs:112 | after loading, each page keeps its paths and holds its own model |
| Pages.LoadAllFirstFailure | Mies/Generator.cs:112 | a failed loading reports the error of the first page that does not load |
| Pages.LoadAllFailureStays | Mies/Generator.cs:112 | a failure among the first pages is the failure of the whole list |
| Pages.LoadedInPlaceIsLoadAll | Mies/Generator.cs:112 | loading the pages in place one by one agrees with loading them into a new list |
| Pages.LoadedInPlaceOutcome | Mies/Generator.cs:112 | the in-place loop's final state, or its failure, is that of LoadAll |
| Pages.RenderedShape | Mies/Generator.cs:116 | rendering gives each rendered page HTML, requires its model, changes nothing else, and leaves later pages as they were |
| Pages.RenderedOutputs | Mies/Generator.cs:116 | each rendered page holds what the renderer made of it from the list as it stood when its turn came |
| Pages.RenderFailureStays | Mies/Generator.cs:116 | a rendering failure is the failure of the whole loop |
| Pages.RenderedPrefix | Mies/Generator.cs:116 | when the loop succeeds, every shorter run of it succeeds |
| Pages.IndexPagesSeeOthersRendered | Mies/Generator.cs:138-141 | with index pages last, each index page is rendered after every other page and its template sees all their HTML |
| Pages.WriteFailureStays | Mies/Generator.cs:123 | a write failure is the failure of the whole loop |
| Pages.WriteAllLastWins | Mies/Generator.cs:123 | after all writes, each output file holds the HTML of the last page that goes to it, and directories are unchanged |
| Pages.WriteAllKeepsOthers | Mies/Generator.cs:123 | writing the pages changes no other file and adds no file but theirs |
| Pages.WriteAllFiles | Mies/Generator.cs:123 | after all writes the files are exactly those there were before and the pages' output files |
| Pages.CommitResult | Mies/Generator.cs:119-123 | a completed commit leaves the output directory with every raw file in place unless a page has its path, every page's HTML unless a later page shares its file, no other file below it (no stale file survives), and every file outside it unchanged |
| Pages.CommitOutside | Mies/Generator.cs:119-123 | outside the output directory a completed commit adds no file, and the only directories it adds are those above the output directory |
| Pages.OutputUntouchedOnPageFailure | Mies/Generator.cs:112-119 | the file system changes only when the input directory exists and every page loaded and rendered |
| Pages.PipelineStages | Mies/Generator.cs:104-126 | a successful run loaded the pages, reordered them, rendered every page, and committed that list |
| Pages.RenderedOrdered | Mies/Generator.cs:113-116 | rendering the reordered list keeps one page per loaded page, each with HTML and a model, index pages last |
| Pages.LoadedPaths | Mies/Generator.cs:104-112 | the loaded list has one page per discovered file, in order, with its output path |
| Pages.DiscoveredPagesRendered | Mies/Generator.cs:104-116 | the rendered list has one page per discovered file, each with HTML, a model and its output path, index pages last |
| Pages.PipelinePages | Mies/Generator.cs:95-127 | a successful run returns one rendered page per discovered file, index pages last |
| Pages.PipelineOutput | Mies/Generator.cs:95-127 | a successful run leaves the output directory holding exactly the raw files and the pages' output files, each raw file with its text unless a page has its path, each page's HTML unless a later page shares its file; every file outside it unchanged |
| Pages.PipelineWithoutPages | Mies/Generator.cs:103-127 | with a page count of zero or less a successful run returns no pages and leaves the output directory holding exactly the raw files with their texts |
| Pages.LoadAllSameInputs | Mies/Generator.cs:112 | loading reads only the pages' input files: stores that agree on them load alike |
| Pages.PipelineRerun | Mies/Generator.cs:95-127 | a second run on what a successful run left, with the same inputs, returns the same pages and leaves the file system exactly as it is, provided the pages directory and the output directory lie outside each other, so that listing the pages directory again finds the same files |
| Generator.CheckDirectoryExistence | Mies/Generator.cs:60-63 | passes exactly when the directory exists; otherwise a directory-not-found error "<label> not found: <path>" |
| Generator.CheckFileExistence | Mies/Generator.cs:65-68 | passes exactly when the file exists; otherwise a file-not-found error "<label> not found: <path>" |
| Generator.SiteSettingsOrder | Mies/Generator.cs:72-80 | the site directory is checked before the site file; a decoded site keeps its keys, gets defaults for the rest and records its file |
| Generator.StartupLocations | Mies/Generator.cs:21-29 | the theme file resolves against the site directory, and the templates directory against the theme file's directory |
| Generator.StartupPlainNames | Mies/Generator.cs:39-57 | with plain names, the theme file sits in the site directory and the templates beside it |
| Generator.DirectoriesBesideConfigs | Mies/Generator.cs:96-98 | the three directories resolve exactly when all three names are present, a missing one being a null argument; plain names sit beside their configuration files |
| Generator.PrepareEmptyPageResult | Mies/Generator.cs:132-136 | a new page result holding the input path and its output path |
| Generator.PrepareEmptyPageResults | Mies/Generator.cs:104-107 | one new, distinct page result per discovered file, in order |
| Generator.IndexPagesLast | Mies/Generator.cs:144-149 | the page objects reordered as Partitioned reorders their values, a permutation keeping distinctness |
| Generator.SiteGenerator.LoadSiteConfig | Mies/Generator.cs:72-80 | returns the SiteConfig object or the error SiteSettings gives |
| Generator.SiteGenerator.LoadThemeConfig | Mies/Generator.cs:82-89 | returns the ThemeConfig object or the error ThemeSettings gives |
| Generator.SiteGenerator.Init | Mies/Generator.cs:25-29 | the generator holds the given configurations and templates directory |
| Generator.SiteGenerator.Create | Mies/Generator.cs:21-37 | construction succeeds exactly when Startup does, holding its configurations and templates directory; otherwise Startup's error |
| Generator.SiteGenerator.LoadPage | Mies/Generator.cs:199-212 | the page at its index gets the model LoadedOne gives, sharing the site and the list, or loading's error |
| Generator.SiteGenerator.LoadPages | Mies/Generator.cs:112 | the list's pages end as LoadAll gives, or with its error; every model shares the site and the list |
| Generator.SiteGenerator.MoveIndexPagesToEnd | Mies/Generator.cs:143-150 | the list's values become Partitioned of the old ones; the same page objects; distinctness and sharing kept |
| Generator.SiteGenerator.RenderPage | Mies/Generator.cs:218-226 | the page's HTML is what RenderedOne gives, or the rendering error naming the page |
| Generator.SiteGenerator.RenderPages | Mies/Generator.cs:116 | the list's values end as Rendered gives, or with its error; no page's model is replaced |
| Generator.SiteGenerator.ClearOutOutputDirectory | Mies/Generator.cs:155-166 | the store and outcome are those of ClearRun |
| Generator.SiteGenerator.CopyFilesInto | Mies/Generator.cs:179-183 | copies the files as CopyFilesOn does and counts them all |
| Generator.SiteGenerator.CopyRawFilesHelper | Mies/Generator.cs:176-191 | copies the tree as TreeOn does and returns the number of files in the whole tree |
| Generator.SiteGenerator.CopySubdirsInto | Mies/Generator.cs:185-188 | creates and copies the subdirectories as SubdirsOn does and counts the files below them |
| Generator.SiteGenerator.CopyRawFiles | Mies/Generator.cs:171-174 | copies the raw-files tree; a missing raw-files directory fails and changes nothing |
| Generator.SiteGenerator.WritePage | Mies/Generator.cs:231-234 | writes the page's HTML, or an empty text for none, to its output path |
| Generator.SiteGenerator.WritePages | Mies/Generator.cs:123 | the store and outcome are those of WriteAll over the list |
| Generator.SiteGenerator.LoadFoundPages | Mies/Generator.cs:104-112 | a new list whose pages end as LoadAll gives over the empty results, each distinct and sharing the list; or LoadAll's error |
| Generator.SiteGenerator.OrderAndRender | Mies/Generator.cs:113-116 | the list's values end as Rendered of the reordered values, or with its error; sharing kept |
| Generator.SiteGenerator.PreparePages | Mies/Generator.cs:104-116 | a new list whose values are what Prepared gives, or Prepared's error |
| Generator.SiteGenerator.CommitPages | Mies/Generator.cs:118-123 | the store and outcome are those of CommitOn over the list's values |
| Generator.SiteGenerator.RunPipeline | Mies/Generator.cs:104-126 | result and final store are those of Pipeline |
| Generator.SiteGenerator.ProcessPages | Mies/Generator.cs:95-127 | result and final store are those of Processing: the directories, then Pipeline |
| Generator.SiteGenerator.Execute | Mies/Generator.cs:48-51 | runs ProcessPages and answers 0 on success, or its error |

## Left out

- Mies/CLI.cs is not part of this model. It covers argument parsing, logger setup, help output and timing.
- Logging is left out. Every `Log.*` call only writes text.
- The foreign engines are function values in `Libraries`: SharpYaml parsing, Newtonsoft binding, Markdig conversion and RazorLight rendering. Each may fail. Their internals, and the case-insensitive field matching, are not modelled.
- Mies does not check that the templates directory exists before building the RazorLight engine for it (Mies/Generator.cs:27-35). Whether building the engine fails for a missing directory is left to the opaque engine: the model leaves the whole engine to the `render` function, and `Startup` does not fail for it.
- Rendering is awaited one page at a time, so it is a plain sequential loop. Nothing concurrent is modelled.
- The file system is an in-memory map of files and a set of directories.
  - Encodings, permissions, timestamps and the exact .NET exception message texts are not modelled.
  - Errors carry the path, and an I/O error carries no cause.
- The files `EnumerateFiles` lists under the pages directory come in as a parameter, in enumeration order. Their order is platform dependent.
- Pages.PipelineRerun: the listing is a parameter rather than read from the `Store`, so the lemma gives the second run the first run's listing. It therefore requires that the output directory not lie inside the pages directory. Otherwise a second run would also list the markdown files the first run copied there from the raw tree, and the source could fail on them (Mies/Generator.cs:104).
- The raw-files directory comes in as a read-only tree snapshot, listed in `GetFiles`/`GetDirectories` order. A missing raw-files directory is `None`.
- The raw-files snapshot is taken apart from the `Store`, so the model does not capture a raw-files directory nested with the output directory. If the output directory contains the raw-files directory (say `outputsDir: .` with the theme inside the site directory), clearing deletes the raw files and the source's listing then throws, where the model copies the snapshot and succeeds. If the output directory lies inside the raw-files directory, the source copies part of its own output, which the model does not show either.
- Paths are component sequences.
  - `Path.Combine` of a rooted name, `..` and `.` are modelled by piece-wise resolution.
  - Invalid characters, drive letters and case-insensitive file systems are not.
- `StartsWith("---")` is culture sensitive in .NET. The model compares ordinally.
- `StringBuilder.AppendLine` is modelled with `Environment.NewLine` fixed to "\n".
- `DateTime` values of the page header are opaque timestamps.
- The binder's PageModel is built in one step with the runtime fields, since nothing observes the state in between.
- ThemeConfig and the `ThemeFile` and `ConfigFile` members of SiteConfig are not declared in the modelled files. They are modelled from their use in Mies/Generator.cs.
- Generator.SiteGenerator.Create: stands for the constructor. A failure to load a configuration returns an error instead of throwing, and the logging is left out.
- Generator.IndexPagesLast: a page without a model counts as no index. In the source it would fault on the null model. That cannot happen in the pipeline, because every page has a model once loading succeeds.
- Generator.SiteGenerator.RenderPage: requires that the list is distinct and that the page's model refers to the list. The source leaves this implicit. The loading stage establishes it.
- Generator.SiteGenerator.RenderPages: requires that the list is distinct and that every model refers to the list, as established by the loading stage.
- Generator.SiteGenerator.OrderAndRender: requires a distinct, fully linked list, as established by the loading stage.
- Generator.SiteGenerator.LoadPage and Generator.SiteGenerator.LoadPages: require a list without repeated page objects. The source's list is built from one new object per file.
- Generator.SiteGenerator.CopyRawFiles: does not log the count. It returns only whether the copy completed.
- Generator.SiteGenerator.ProcessPages: split into stage methods so each proof stays small. These are RunPipeline, PreparePages, LoadFoundPages, OrderAndRender and CommitPages, and CopyFilesInto and CopySubdirsInto for the two loops of CopyRawFilesHelper. Together they run the source's statements in the source's order.
