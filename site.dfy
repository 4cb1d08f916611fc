/**
  The build driven by `main`: discover the pages, compile every one of them,
  and only then write each page with the navigation list of all pages.
 */
module Site {

  import opened Text
  import opened Paths
  import opened Pages
  import opened Discovery
  import opened Compiler

  /** The end of the compile phase: every page compiled, or the first failure. */
  datatype CompileOutcome =
    | AllCompiled(pages: seq<CompiledPage>)
    | CompileFailed(index: nat, error: CompileError)

  /** One page written: the directory made for it, the file created and what the template was given. */
  datatype Output = Output(directory: Path, file: Path, input: RenderInput)

  /** Why the build stopped: the fatal errors of `main`. */
  datatype Abort =
    | CompileAborted(index: nat, error: CompileError)
    | CreateAborted(file: Path)
    | RenderAborted(file: Path)

  datatype Status = Completed | Aborted(reason: Abort)

  /** The navigation list shown on page i: one entry per compiled page, in order. */
  function Navigation(compiled: seq<CompiledPage>, i: nat): seq<Entry>
  {
    seq(|compiled|, j requires 0 <= j < |compiled| =>
      Entry(compiled[j].title, compiled[j].original.HttpPath(), i == j))
  }

  function CountActive(entries: seq<Entry>): nat
  {
    if entries == [] then 0
    else (if entries[0].active then 1 else 0) + CountActive(entries[1..])
  }

  /** What is written for page i once every page has compiled. */
  function Planned(compiled: seq<CompiledPage>, i: nat): Output
    requires i < |compiled|
  {
    var page := compiled[i];
    Output(page.original.CompileDirectory(), page.original.CompilePath(),
           RenderInput(Navigation(compiled, i), page.title, page.content))
  }

  /** The compiled pages, when every page compiles. */
  function CompiledAll(env: Env, pages: seq<Page>): seq<CompiledPage>
    requires forall i :: 0 <= i < |pages| ==> Compile(env, pages[i]).Ok?
  {
    seq(|pages|, i requires 0 <= i < |pages| => Compile(env, pages[i]).value)
  }

  /**
    The compile loop of `main`: compile the pages in order into a table of
    the same length, stopping at the first page that fails.
   */
  method CompilePages(env: Env, pages: seq<Page>) returns (outcome: CompileOutcome)
    ensures outcome.AllCompiled? ==>
              |outcome.pages| == |pages| &&
              forall i :: 0 <= i < |pages| ==> Compile(env, pages[i]) == Ok(outcome.pages[i])
    ensures outcome.CompileFailed? ==>
              && outcome.index < |pages|
              && Compile(env, pages[outcome.index]) == Err(outcome.error)
              && forall i :: 0 <= i < outcome.index ==> Compile(env, pages[i]).Ok?
  {
    var compiledPages := new CompiledPage[|pages|];
    for i := 0 to |pages|
      invariant forall k :: 0 <= k < i ==> Compile(env, pages[k]) == Ok(compiledPages[k])
    {
      var compiled := Compile(env, pages[i]);
      if compiled.Err? {
        return CompileFailed(i, compiled.error);
      }
      compiledPages[i] := compiled.value;
    }
    return AllCompiled(compiledPages[..]);
  }

  /** The inner loop of `main`: fill the entry table for page i, one slot per compiled page. */
  method BuildEntries(compiled: seq<CompiledPage>, i: nat) returns (entries: seq<Entry>)
    ensures entries == Navigation(compiled, i)
  {
    var table := new Entry[|compiled|];
    for j := 0 to |compiled|
      invariant forall k :: 0 <= k < j ==> table[k] == Navigation(compiled, i)[k]
    {
      var op := compiled[j];
      table[j] := Entry(op.title, op.original.HttpPath(), i == j);
    }
    entries := table[..];
  }

  /**
    The render loop of `main`: for each compiled page in order, make its
    directory, create its file and execute the template on it. Failing to
    create the file or to execute the template stops the build; the pages
    written before stay written.
   */
  method WriteSite(env: Env, compiled: seq<CompiledPage>) returns (outputs: seq<Output>, status: Status)
    ensures |outputs| <= |compiled|
    ensures forall i :: 0 <= i < |outputs| ==>
              outputs[i] == Planned(compiled, i) &&
              env.canCreate(outputs[i].file) && env.templateAccepts(outputs[i].input)
    ensures status.Completed? <==> |outputs| == |compiled|
    ensures status.Aborted? ==>
              var next := Planned(compiled, |outputs|);
              || (status.reason == CreateAborted(next.file) && !env.canCreate(next.file))
              || (status.reason == RenderAborted(next.file) &&
                  env.canCreate(next.file) && !env.templateAccepts(next.input))
  {
    outputs := [];
    for i := 0 to |compiled|
      invariant |outputs| == i
      invariant forall k :: 0 <= k < i ==>
                  outputs[k] == Planned(compiled, k) &&
                  env.canCreate(outputs[k].file) && env.templateAccepts(outputs[k].input)
    {
      var p := compiled[i];
      var entries := BuildEntries(compiled, i);
      var directory := p.original.CompileDirectory();
      var file := p.original.CompilePath();
      if !env.canCreate(file) {
        return outputs, Aborted(CreateAborted(file));
      }
      var input := RenderInput(entries, p.title, p.content);
      if !env.templateAccepts(input) {
        return outputs, Aborted(RenderAborted(file));
      }
      outputs := outputs + [Output(directory, file, input)];
    }
    status := Completed;
  }

  /**
    `main`: collect the pages under the root, compile all of them, and write
    them only if every page compiled. A page that fails to compile aborts the
    build before anything is written.
   */
  method Build(root: Path, walk: seq<WalkEntry>, env: Env) returns (outputs: seq<Output>, status: Status)
    ensures var pages := Discovered(root, walk);
            (status.Aborted? && status.reason.CompileAborted?) <==>
              exists i :: 0 <= i < |pages| && Compile(env, pages[i]).Err?
    ensures var pages := Discovered(root, walk);
            status.Aborted? && status.reason.CompileAborted? ==>
              && outputs == []
              && status.reason.index < |pages|
              && Compile(env, pages[status.reason.index]) == Err(status.reason.error)
              && forall i :: 0 <= i < status.reason.index ==> Compile(env, pages[i]).Ok?
    ensures var pages := Discovered(root, walk);
            (forall i :: 0 <= i < |pages| ==> Compile(env, pages[i]).Ok?) ==>
              && |outputs| <= |pages|
              && (status.Completed? <==> |outputs| == |pages|)
              && forall i :: 0 <= i < |outputs| ==> outputs[i] == Planned(CompiledAll(env, pages), i)
    ensures var pages := Discovered(root, walk);
            (forall i :: 0 <= i < |pages| ==> Compile(env, pages[i]).Ok?) ==>
              && (forall i :: 0 <= i < |outputs| ==>
                    env.canCreate(outputs[i].file) && env.templateAccepts(outputs[i].input))
              && (status.Aborted? ==>
                    && |outputs| < |pages|
                    && var next := Planned(CompiledAll(env, pages), |outputs|);
                       || (status.reason == CreateAborted(next.file) && !env.canCreate(next.file))
                       || (status.reason == RenderAborted(next.file) &&
                           env.canCreate(next.file) && !env.templateAccepts(next.input)))
  {
    var pages := CollectPages(root, walk);
    var outcome := CompilePages(env, pages);
    if outcome.CompileFailed? {
      return [], Aborted(CompileAborted(outcome.index, outcome.error));
    }
    assert outcome.pages == CompiledAll(env, pages);
    outputs, status := WriteSite(env, outcome.pages);
  }

  /** On the navigation list of page i, entry i and no other is active. */
  lemma {:induction false} ExactlyOneActive(compiled: seq<CompiledPage>, i: nat)
    requires i < |compiled|
    ensures forall j :: 0 <= j < |compiled| ==> (Navigation(compiled, i)[j].active <==> j == i)
    ensures CountActive(Navigation(compiled, i)) == 1
  {
    OnlyActiveAt(Navigation(compiled, i), i);
  }

  lemma {:induction false} OnlyActiveAt(entries: seq<Entry>, i: nat)
    requires i < |entries|
    requires forall j :: 0 <= j < |entries| ==> (entries[j].active <==> j == i)
    ensures CountActive(entries) == 1
  {
    if i == 0 {
      NoneActive(entries[1..]);
    } else {
      OnlyActiveAt(entries[1..], i - 1);
    }
  }

  lemma {:induction false} NoneActive(entries: seq<Entry>)
    requires forall j :: 0 <= j < |entries| ==> !entries[j].active
    ensures CountActive(entries) == 0
  {
    if entries != [] {
      NoneActive(entries[1..]);
    }
  }

  /**
    Entry j of every navigation list shows page j's configured title and links
    to page j; the list has one entry per discovered page.
   */
  lemma EntriesShowConfiguredTitles(env: Env, pages: seq<Page>, i: nat, j: nat)
    requires forall k :: 0 <= k < |pages| ==> Compile(env, pages[k]).Ok?
    requires i < |pages| && j < |pages|
    ensures var entries := Planned(CompiledAll(env, pages), i).input.entries;
            && |entries| == |pages|
            && Some(PageConfig(entries[j].title)) == env.decodeConfig(env.files[pages[j].configPath])
            && entries[j].link == pages[j].HttpPath()
  {
    assert Compile(env, pages[j]).Ok?;
  }

  /**
    Page i is written into the directory made for it, with the title its config
    decodes to and its own content rendered to HTML.
   */
  lemma OutputOfPage(env: Env, pages: seq<Page>, i: nat)
    requires forall k :: 0 <= k < |pages| ==> Compile(env, pages[k]).Ok?
    requires i < |pages|
    ensures var out := Planned(CompiledAll(env, pages), i);
            && out.file == out.directory + [CompiledContentFile]
            && out.file == pages[i].CompilePath()
            && Some(PageConfig(out.input.title)) == env.decodeConfig(env.files[pages[i].configPath])
            && out.input.content == env.markdownToHtml(env.files[pages[i].contentPath])
  {
    assert Compile(env, pages[i]).Ok?;
    CompilePathInsideDirectory(pages[i]);
  }

  /** The walk of a site with an index page and one sub-page "about", in lexical order. */
  function HomeAndAboutWalk(): seq<WalkEntry>
  {
    [ WalkEntry(["pages"], "pages", true),
      WalkEntry(["pages", "about"], "about", true),
      WalkEntry(["pages", "about", "config.yml"], "config.yml", false),
      WalkEntry(["pages", "about", "content.md"], "content.md", false),
      WalkEntry(["pages", "config.yml"], "config.yml", false),
      WalkEntry(["pages", "index.md"], "index.md", false) ]
  }

  const AboutPage: Page := Page(SubPage, ["pages", "about", "config.yml"], ["pages", "about", "content.md"])
  const HomePage: Page := Page(Index, ["pages", "config.yml"], ["pages", "index.md"])

  /** A config file is not a page file. */
  lemma ConfigFileIsNoPage(e: WalkEntry)
    requires e.name == "config.yml"
    ensures !IsPageFile(e)
  {
    assert Fold("config.yml") == "config.yml";
    assert Fold("content.md") == "content.md";
    assert Fold("index.md") == "index.md";
  }

  /** The sub-page's content file yields the sub-page. */
  lemma AboutEntry()
    ensures PagesOf([ParentDirectory], HomeAndAboutWalk()[3]) == [AboutPage]
  {
    var e := HomeAndAboutWalk()[3];
    assert Fold("content.md") == "content.md";
    NestedIndexIsSubPage([ParentDirectory], ["about"], e);
    assert Dir(e.path) + [ConfigFile] == AboutPage.configPath;
  }

  /** The root's index file yields the index page. */
  lemma HomeEntry()
    ensures PagesOf([ParentDirectory], HomeAndAboutWalk()[5]) == [HomePage]
  {
    var e := HomeAndAboutWalk()[5];
    assert Fold("index.md") == "index.md";
    RootIndexIsIndex([ParentDirectory], e);
    assert Dir(e.path) + [ConfigFile] == HomePage.configPath;
  }

  /** The root directory, the about directory and the root config yield no page. */
  lemma HomeAndAboutLeadingEntries()
    ensures Discovered([ParentDirectory], HomeAndAboutWalk()[..3]) == []
  {
    var root: Path := [ParentDirectory];
    var walk := HomeAndAboutWalk();
    ConfigFileIsNoPage(walk[2]);
    DiscoveredSnoc(root, [], walk[0]);
    DiscoveredSnoc(root, walk[..1], walk[1]);
    DiscoveredSnoc(root, walk[..2], walk[2]);
    assert [walk[0]] == walk[..1];
    assert walk[..1] + [walk[1]] == walk[..2];
    assert walk[..2] + [walk[2]] == walk[..3];
  }

  /** Up to and including the sub-page's content file, that walk yields the sub-page alone. */
  lemma HomeAndAboutSubPage()
    ensures Discovered([ParentDirectory], HomeAndAboutWalk()[..4]) == [AboutPage]
  {
    var root: Path := [ParentDirectory];
    var walk := HomeAndAboutWalk();
    HomeAndAboutLeadingEntries();
    AboutEntry();
    DiscoveredSnoc(root, walk[..3], walk[3]);
    assert walk[..3] + [walk[3]] == walk[..4];
  }

  /** That walk yields two pages, the sub-page first. */
  lemma HomeAndAboutPages()
    ensures Discovered([ParentDirectory], HomeAndAboutWalk()) == [AboutPage, HomePage]
  {
    var root: Path := [ParentDirectory];
    var walk := HomeAndAboutWalk();
    HomeAndAboutSubPage();
    ConfigFileIsNoPage(walk[4]);
    HomeEntry();
    DiscoveredSnoc(root, walk[..4], walk[4]);
    DiscoveredSnoc(root, walk[..5], walk[5]);
    assert walk[..4] + [walk[4]] == walk[..5];
    assert walk[..5] + [walk[5]] == walk;
  }

  /**
    With configs titled "Home" and "About", the sub-page is written to
    compiled/about/index.html and the index to compiled/index.html, each with
    a two-entry navigation list in which its own entry is the active one.
   */
  lemma HomeAndAboutOutputs(env: Env)
    requires ["pages", "config.yml"] in env.files && ["pages", "index.md"] in env.files
    requires ["pages", "about", "config.yml"] in env.files && ["pages", "about", "content.md"] in env.files
    requires env.decodeConfig(env.files[["pages", "config.yml"]]) == Some(PageConfig("Home"))
    requires env.decodeConfig(env.files[["pages", "about", "config.yml"]]) == Some(PageConfig("About"))
    ensures Compile(env, AboutPage).Ok? && Compile(env, HomePage).Ok?
    ensures var compiled := CompiledAll(env, [AboutPage, HomePage]);
            && Planned(compiled, 0).file == ["compiled", "about", "index.html"]
            && Planned(compiled, 1).file == ["compiled", "index.html"]
            && Planned(compiled, 0).input.entries == [Entry("About", "/about", true), Entry("Home", "/", false)]
            && Planned(compiled, 1).input.entries == [Entry("About", "/about", false), Entry("Home", "/", true)]
  {
    assert Compile(env, AboutPage).Ok? && Compile(env, HomePage).Ok?;
    var compiled := CompiledAll(env, [AboutPage, HomePage]);
    assert compiled[0].title == "About" && compiled[1].title == "Home";
    assert AboutPage.HttpPath() == "/about";
  }

  /** The sub-page of that site is written to compiled/about/index.html and linked as /about. */
  lemma AboutFile()
    ensures Render(AboutPage.CompilePath()) == "compiled/about/index.html"
    ensures AboutPage.HttpPath() == "/about"
  {
    assert AboutPage.CompilePath() == ["compiled", "about"] + ["index.html"];
    RenderSnoc(["compiled", "about"], "index.html");
    assert ["compiled", "about"] == ["compiled"] + ["about"];
    RenderSnoc(["compiled"], "about");
    RenderSnoc([], "compiled");
  }

  /** The index page of that site is written to compiled/index.html and linked as /. */
  lemma HomeFile()
    ensures Render(HomePage.CompilePath()) == "compiled/index.html"
    ensures HomePage.HttpPath() == "/"
  {
    assert HomePage.CompilePath() == ["compiled"] + ["index.html"];
    RenderSnoc(["compiled"], "index.html");
    RenderSnoc([], "compiled");
  }
}
