/**
  Pages of the site and where each one is written and linked.
 */
module Pages {

  import opened Paths

  const IndexFile: string := "index.md"
  const ContentFile: string := "content.md"
  const ConfigFile: string := "config.yml"
  const ParentDirectory: string := "pages"
  const CompiledDirectory: string := "compiled"
  const CompiledContentFile: string := "index.html"

  datatype PageType = Index | SubPage

  /** A discovered content file together with the config file that goes with it. */
  datatype Page = Page(kind: PageType, configPath: Path, contentPath: Path)
  {
    /** The directory the compiled page is written into. */
    function CompileDirectory(): (d: Path)
      ensures kind == Index ==> d == [CompiledDirectory]
      ensures kind == SubPage && ParentName(contentPath) != "." ==>
                d == [CompiledDirectory, ParentName(contentPath)]
      ensures kind == SubPage && ParentName(contentPath) == "." ==> d == [CompiledDirectory]
    {
      if kind == Index then [CompiledDirectory]
      else JoinName([CompiledDirectory], ParentName(contentPath))
    }

    /** The HTML file the compiled page is written to. */
    function CompilePath(): (f: Path)
      ensures kind == Index ==> f == [CompiledDirectory, CompiledContentFile]
      ensures kind == SubPage && ParentName(contentPath) != "." ==>
                f == [CompiledDirectory, ParentName(contentPath), CompiledContentFile]
      ensures kind == SubPage && ParentName(contentPath) == "." ==> f == [CompiledDirectory, CompiledContentFile]
    {
      if kind == Index then [CompiledDirectory, CompiledContentFile]
      else JoinName([CompiledDirectory], ParentName(contentPath)) + [CompiledContentFile]
    }

    /** The site-relative link to the page. */
    function HttpPath(): (h: string)
      ensures kind == Index ==> h == "/"
      ensures kind == SubPage ==> |h| >= 1 && h[0] == '/' && h[1..] == ParentName(contentPath)
    {
      if kind == Index then "/" else "/" + ParentName(contentPath)
    }
  }

  /** A page's settings as the YAML decoder fills them; an absent title is empty. */
  datatype PageConfig = PageConfig(title: string)

  /** A page with its title and its content rendered to HTML. */
  datatype CompiledPage = CompiledPage(original: Page, title: string, content: string)

  /** One item of the navigation list shown on every page. */
  datatype Entry = Entry(title: string, link: string, active: bool)

  /** What the page template is executed with. */
  datatype RenderInput = RenderInput(entries: seq<Entry>, title: string, content: string)

  /** The file is written inside the directory that is created for it, under the name index.html. */
  lemma CompilePathInsideDirectory(p: Page)
    ensures p.CompilePath() == p.CompileDirectory() + [CompiledContentFile]
    ensures Render(p.CompilePath()) == Render(p.CompileDirectory()) + "/" + CompiledContentFile
  {
    RenderSnoc(p.CompileDirectory(), CompiledContentFile);
  }

  /**
    The output paths as text: "compiled" and "compiled/index.html" for the
    index page, "compiled/b" and "compiled/b/index.html" for a sub-page whose
    content file sits in a directory named b.
   */
  lemma RenderedOutputPaths(p: Page)
    ensures p.kind == Index ==>
              Render(p.CompileDirectory()) == CompiledDirectory &&
              Render(p.CompilePath()) == CompiledDirectory + "/" + CompiledContentFile
    ensures p.kind == SubPage && ParentName(p.contentPath) != "." ==>
              var b := ParentName(p.contentPath);
              Render(p.CompileDirectory()) == CompiledDirectory + "/" + b &&
              Render(p.CompilePath()) == CompiledDirectory + "/" + b + "/" + CompiledContentFile
  {
    RenderSnoc([], CompiledDirectory);
    CompilePathInsideDirectory(p);
    if p.kind == SubPage && ParentName(p.contentPath) != "." {
      RenderSnoc([CompiledDirectory], ParentName(p.contentPath));
    }
  }

  /**
    A sub-page's output directory, output file and link depend on nothing but
    the name of the directory holding its content file: two sub-pages whose
    parent directories share that name are written to the same file.
   */
  lemma SubPageAddressedByParentName(p: Page, q: Page)
    requires p.kind == SubPage && q.kind == SubPage
    requires ParentName(p.contentPath) == ParentName(q.contentPath)
    ensures p.CompileDirectory() == q.CompileDirectory()
    ensures p.CompilePath() == q.CompilePath()
    ensures p.HttpPath() == q.HttpPath()
  {
  }

  /**
    The link of a page names its output directory below the compiled directory,
    for the index page and for every sub-page whose content file has a named
    parent directory.
   */
  lemma LinkNamesOutputDirectory(p: Page)
    requires p.kind == Index || ParentName(p.contentPath) != "."
    ensures p.kind == Index ==> Render(p.CompileDirectory()) + p.HttpPath() == CompiledDirectory + "/"
    ensures p.kind == SubPage ==> Render(p.CompileDirectory()) == CompiledDirectory + p.HttpPath()
  {
    RenderedOutputPaths(p);
  }

  /**
    A sub-page whose content path is a bare file name (a walk rooted at ".")
    has "." as its parent name, so it is written to the index page's file.
   */
  lemma BareSubPageOverwritesIndex(p: Page, index: Page)
    requires p.kind == SubPage && |p.contentPath| == 1 && index.kind == Index
    ensures p.CompilePath() == index.CompilePath()
    ensures p.HttpPath() == "/."
  {
  }
}
