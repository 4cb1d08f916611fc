# mdwiki builder, modelled in Dafny

This project models the core of mdwiki's site builder (`builder.go`). The builder:

- walks the `pages` directory;
- turns every `index.md` or `content.md` file, matched ignoring case, into a page;
- compiles every page, which means reading its `config.yml` and its markdown and rendering the markdown to HTML;
- only then writes each page to `compiled/<name>/index.html` (or `compiled/index.html` for the index page), passing the template a navigation list of all pages in which its own entry is the active one.

Modules, one file each:

- `Text` (text.dfy): ASCII case folding, the model of `strings.EqualFold`.
- `Paths` (paths.dfy): slash-separated paths as sequences of segments. `[]` is the path `"."`. It also holds the `filepath.Dir`, `filepath.Split` + `filepath.Base` and `filepath.Join` rules the builder uses.
- `Pages` (pages.dfy): the builder's constants, `Page` with its three path rules `CompileDirectory`, `CompilePath` and `HttpPath`, and the records `PageConfig`, `CompiledPage`, `Entry` and `RenderInput`.
- `Discovery` (discovery.dfy): the `CollectPages` callback as a loop over the walk. The walk itself is an input: the entries in visit order.
- `Compiler` (compiler.dfy): `Page.Compile`. The file system, the YAML decoder and the markdown renderer are the oracles of an `Env` value.
- `Site` (site.dfy): `main`. This covers the compile loop into a pre-sized table, the entry table built for each page, and the create/render loop. `Build` chains discovery, compilation and writing.

### Behaviour worth knowing

- **No partial output.** A page whose config or content cannot be read, or whose config is malformed, stops the build before anything at all is written. The code compiles every page before it writes any page. `Site.Build` proves `outputs == []` in that case. Pages written earlier stay on disk only when the failure comes later, from creating a file or executing the template (`Site.WriteSite`).
- **Content files at any depth.** Every `content.md` or `index.md` anywhere under the root becomes a page, not only those in immediate subdirectories. An `index.md` any number of directories below the root is a sub-page (`Discovery.NestedIndexIsSubPage`).
- **More than one index page is possible.** One might expect exactly one index page. The code does not guarantee this:
  - the walk may contain no root `index.md` at all;
  - on a case-sensitive file system, `index.md` and `INDEX.md` can both exist, and both become index pages (`Discovery.TwoIndexPagesOnCaseSensitiveFileSystem`).

  `Discovery.ExactlyOneIndex` proves exactly one index page when the root's index file is walked and no two walked paths differ only in case.
- **A malformed config is an error.** The YAML decoder's error aborts the build; the title is not defaulted. A config without a `title` key decodes to the empty title. The model leaves that choice to the `decodeConfig` oracle.

## Model

| member | source | states |
|---|---|---|
| Pages.Page.CompileDirectory | builder.go:100-107 | the index page's output directory is `compiled`; a sub-page's is `compiled/<b>`, where b is the base name of its content file's directory, and plain `compiled` when that name is "." |
| Pages.Page.CompilePath | builder.go:109-117 | the index page's output file is `compiled/index.html`; a sub-page's is `compiled/<b>/index.html`, or `compiled/index.html` when b is "." |
| Pages.Page.HttpPath | builder.go:119-127 | the index page's link is `/`; a sub-page's link is `/` followed by its parent directory's base name |
| Pages.CompilePathInsideDirectory | builder.go:100-117 | the output file is `index.html` inside the output directory, as segments and as text |
| Pages.RenderedOutputPaths | builder.go:100-117 | as text: `compiled` and `compiled/index.html` for the index page, `compiled/b` and `compiled/b/index.html` for a sub-page under a directory named b |
| Pages.SubPageAddressedByParentName | builder.go:104-126 | two sub-pages whose parent directories share a base name get the same output directory, output file and link |
| Pages.LinkNamesOutputDirectory | builder.go:100-127 | for the index page, the output directory followed by the link is `compiled/`; for a sub-page with a named parent directory, the output directory is `compiled` followed by the link |
| Pages.BareSubPageOverwritesIndex | builder.go:109-126 | a sub-page whose content path is a bare file name is written to the index page's file and linked as `/.` |
| Discovery.PageFor | builder.go:171-182 | the page built for a page file keeps the walked path as content path and has `config.yml` in the same directory as its config path; it is an index page iff its name equals `index.md` and its directory equals the root, both ignoring case |
| Discovery.ConfigBesideContent | builder.go:173-176 | as text, the config path is the content file's directory joined with `config.yml` |
| Discovery.Discovered | builder.go:170-188 | a walk yields exactly as many pages as it has page files, never more than its entries |
| Discovery.CollectPages | builder.go:166-191 | the loop over the walk returns the discovered pages: one page per page file, in walk order, and nothing for directories or other files |
| Discovery.DiscoveredAppend | builder.go:170-188 | discovery over a walk split in two is discovery over the first part followed by discovery over the second |
| Discovery.PageOfEntry | builder.go:171-184 | the page of the page file at walk position i is appended right after the pages of the entries before it |
| Discovery.NonPageEntryAddsNothing | builder.go:171-172 | removing a directory or non-page file from the walk leaves the discovered pages unchanged |
| Discovery.DiscoveredFromPageFiles | builder.go:171-184 | every discovered page is the page of some page file of the walk |
| Discovery.ContentFileIsSubPage | builder.go:172-182 | a `content.md` file, in any case, is a sub-page even directly under the root |
| Discovery.NestedIndexIsSubPage | builder.go:180-182 | an `index.md` one or more directories below the root (with a clean path) is a sub-page |
| Discovery.RootIndexIsIndex | builder.go:180-182 | the root's own `index.md`, in any case, is the index page |
| Discovery.CountIndexOfEntry | builder.go:171-184 | a walk entry adds an index page exactly when it is the root's index file |
| Discovery.IndexPagesAreIndexEntries | builder.go:170-188 | the number of index pages equals the number of walked index files of the root |
| Discovery.IndexEntryUnique | builder.go:180 | when walked paths are distinct ignoring case, the root has at most one index file |
| Discovery.ExactlyOneIndex | builder.go:166-191 | with the root's index file walked and paths distinct ignoring case, exactly one discovered page is the index page |
| Discovery.TwoIndexPagesOnCaseSensitiveFileSystem | builder.go:180-184 | `pages/INDEX.md` and `pages/index.md` both become index pages |
| Compiler.Compile | builder.go:133-163 | compilation fails iff the config is unreadable, else iff the content is unreadable, else iff the config does not decode, in that order, and succeeds iff all three steps succeed; on success the compiled page keeps the page, carries the decoded title and holds the rendered content |
| Site.CompilePages | builder.go:195-207 | when every page compiles, the table has one compiled page per page, in the same order; otherwise it reports the first page that fails and its error, with every earlier page compiled |
| Site.BuildEntries | builder.go:214-223 | the entry table for page i is the navigation list: entry j has page j's title and link and is active iff j == i |
| Site.WriteSite | builder.go:214-241 | pages are written in order with their planned directory, file and template input; the build completes iff every page is written, and otherwise stops at the first page whose file cannot be created or whose template fails |
| Site.Build | builder.go:193-241 | the build aborts during compilation iff some discovered page fails to compile, writing nothing and reporting the first failure; otherwise it writes a prefix of the planned outputs, each of whose file could be created and whose template ran, all of them when it completes, and it stops early only at the next planned page whose file cannot be created or whose template fails |
| Site.ExactlyOneActive | builder.go:214-223 | on page i's navigation list, entry j is active iff j == i, so exactly one entry is active |
| Site.EntriesShowConfiguredTitles | builder.go:199-223 | every navigation list has one entry per page, and entry j carries page j's configured title and link |
| Site.OutputOfPage | builder.go:199-236 | page i is written to `index.html` inside its output directory, with its configured title and its rendered markdown |
| Site.HomeAndAboutPages | builder.go:166-191 | the walk of `pages/{index.md, config.yml, about/{content.md, config.yml}}` discovers the sub-page `about` and then the index page |
| Site.HomeAndAboutOutputs | builder.go:193-236 | with configs titled "Home" and "About", the two pages go to `compiled/about/index.html` and `compiled/index.html`, and each navigation list has its own entry active |
| Site.AboutFile | builder.go:109-127 | the sub-page of that site is written to `compiled/about/index.html` and linked as `/about` |
| Site.HomeFile | builder.go:109-127 | the index page of that site is written to `compiled/index.html` and linked as `/` |

## Left out

- The directory walk itself (`filepath.WalkDir`): its traversal order, its error reports and unreadable directories. The walk is an input sequence. The callback dereferences `file` without checking `err`, so an error report for the root would crash it; that path is not modelled.
- All file-system effects. Reading files is the `files` map. `os.MkdirAll` is modelled only as the directory recorded in each output; the code ignores its error. Whether `os.Create` succeeds and whether template execution succeeds are the `canCreate` and `templateAccepts` oracles. The bytes written, the partial file left by a failed render, and `f.Close` are not modelled.
- YAML decoding, markdown rendering and the HTML template are oracles (`decodeConfig`, `markdownToHtml`, `templateAccepts`). Their internals are outside the model.
- Copying `assets/` with `cp.Copy` at the end of `main`: its error is ignored and it does not affect the pages.
- Logging (`log.Println`) and the process exit of `log.Fatalln`. A fatal error is the `Aborted` status.
- `Page.String` (builder.go:129-131) is only used for logging.
- `Text.EqualFold` compares ASCII case-folded strings. Go's `strings.EqualFold` uses Unicode simple case folding, so it also equates non-ASCII letters; the model does not.
- Paths are sequences of clean segments relative to the working directory. Absolute roots and roots that are not clean, such as `./pages`, are not modelled. For those, `filepath.Dir` cleans the path and changes the textual comparison with the root.
- The `entriesForPage` map is keyed by the address of each compiled page, one key per page. It is modelled as the entry sequence built for each page index.
