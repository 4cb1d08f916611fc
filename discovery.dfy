/**
  Page discovery: the directory walk callback of `CollectPages`. The walk itself
  is an input, the sequence of entries in the order the walk visits them.
 */
module Discovery {

  import opened Text
  import opened Paths
  import opened Pages

  /** One entry reported by the walk: its path, its name, and whether it is a directory. */
  datatype WalkEntry = WalkEntry(path: Path, name: string, isDir: bool)

  /** A walked file is a page when its name is "content.md" or "index.md", ignoring case. */
  predicate IsPageFile(e: WalkEntry)
  {
    !e.isDir && (EqualFold(ContentFile, e.name) || EqualFold(IndexFile, e.name))
  }

  /** The index file of the walk root: named "index.md" (ignoring case) and directly under the root. */
  predicate IsIndexEntry(root: Path, e: WalkEntry)
  {
    IsPageFile(e) && EqualFold(e.name, IndexFile) && EqualFold(Render(root), Render(Dir(e.path)))
  }

  /** The page the callback builds for a page file. */
  function PageFor(root: Path, e: WalkEntry): (p: Page)
    ensures p.contentPath == e.path
    ensures p.configPath != [] && p.configPath[|p.configPath| - 1] == ConfigFile
    ensures Dir(p.configPath) == Dir(p.contentPath)
    ensures p.kind == Index <==>
              EqualFold(e.name, IndexFile) && EqualFold(Render(root), Render(Dir(e.path)))
  {
    var parentDir := Dir(e.path);
    var page := Page(SubPage, parentDir + [ConfigFile], e.path);
    if EqualFold(e.name, IndexFile) && EqualFold(Render(root), Render(parentDir)) then
      page.(kind := Index)
    else
      page
  }

  /** As text, the config path is the content file's directory joined with "config.yml". */
  lemma ConfigBesideContent(root: Path, e: WalkEntry)
    ensures var dir := Dir(e.path);
            Render(PageFor(root, e).configPath) ==
              if dir == [] then ConfigFile else Render(dir) + "/" + ConfigFile
  {
    RenderSnoc(Dir(e.path), ConfigFile);
  }

  /** How many entries of a walk are page files. */
  function PageFileCount(walk: seq<WalkEntry>): (n: nat)
    ensures n <= |walk|
  {
    if walk == [] then 0
    else PageFileCount(walk[..|walk| - 1]) + if IsPageFile(walk[|walk| - 1]) then 1 else 0
  }

  /** The pages discovered by a walk, one per page file, in walk order. */
  function Discovered(root: Path, walk: seq<WalkEntry>): (pages: seq<Page>)
    ensures |pages| == PageFileCount(walk)
    ensures |pages| <= |walk|
  {
    if walk == [] then []
    else
      Discovered(root, walk[..|walk| - 1]) + PagesOf(root, walk[|walk| - 1])
  }

  /** What the callback appends for one entry: its page if it is a page file, else nothing. */
  function PagesOf(root: Path, e: WalkEntry): seq<Page>
  {
    if IsPageFile(e) then [PageFor(root, e)] else []
  }

  /** An entry adds an index page exactly when it is the root's index file. */
  lemma CountIndexOfEntry(root: Path, e: WalkEntry)
    ensures CountIndex(PagesOf(root, e)) == if IsIndexEntry(root, e) then 1 else 0
  {
    if IsPageFile(e) {
      assert PagesOf(root, e)[..0] == [];
    }
  }

  /**
    `CollectPages`: walk the entries in order and append a page for every page
    file. Directories and other files add nothing.
   */
  method CollectPages(root: Path, walk: seq<WalkEntry>) returns (pages: seq<Page>)
    ensures pages == Discovered(root, walk)
  {
    pages := [];
    for i := 0 to |walk|
      invariant pages == Discovered(root, walk[..i])
    {
      assert walk[..i + 1][..i] == walk[..i];
      var file := walk[i];
      if !file.isDir {
        if EqualFold(ContentFile, file.name) || EqualFold(IndexFile, file.name) {
          var parentDir := Dir(file.path);
          var page := Page(SubPage, parentDir + [ConfigFile], file.path);
          if EqualFold(file.name, IndexFile) && EqualFold(Render(root), Render(parentDir)) {
            page := page.(kind := Index);
          }
          pages := pages + [page];
        }
      }
    }
    assert walk[..|walk|] == walk;
  }

  /** Walking one more entry appends what that entry yields. */
  lemma DiscoveredSnoc(root: Path, walk: seq<WalkEntry>, e: WalkEntry)
    ensures Discovered(root, walk + [e]) == Discovered(root, walk) + PagesOf(root, e)
  {
    assert (walk + [e])[..|walk|] == walk;
  }

  /** Discovery over two consecutive stretches of a walk is discovery over each, in order. */
  lemma {:induction false} DiscoveredAppend(root: Path, a: seq<WalkEntry>, b: seq<WalkEntry>)
    ensures Discovered(root, a + b) == Discovered(root, a) + Discovered(root, b)
  {
    if b == [] {
      assert a + b == a;
    } else {
      var b' := b[..|b| - 1];
      assert (a + b)[..|a + b| - 1] == a + b';
      DiscoveredAppend(root, a, b');
    }
  }

  /**
    The page for a page file at walk position i comes right after the pages of
    the entries before it.
   */
  lemma PageOfEntry(root: Path, walk: seq<WalkEntry>, i: nat)
    requires i < |walk| && IsPageFile(walk[i])
    ensures |Discovered(root, walk[..i])| < |Discovered(root, walk)|
    ensures Discovered(root, walk)[|Discovered(root, walk[..i])|] == PageFor(root, walk[i])
  {
    assert walk == walk[..i + 1] + walk[i + 1..];
    assert walk[..i + 1] == walk[..i] + [walk[i]];
    DiscoveredSnoc(root, walk[..i], walk[i]);
    var before := Discovered(root, walk[..i]);
    assert PagesOf(root, walk[i]) == [PageFor(root, walk[i])];
    DiscoveredAppend(root, walk[..i + 1], walk[i + 1..]);
    assert Discovered(root, walk) == before + [PageFor(root, walk[i])] + Discovered(root, walk[i + 1..]);
  }

  /** An entry that is not a page file can be dropped from the walk without changing the result. */
  lemma NonPageEntryAddsNothing(root: Path, walk: seq<WalkEntry>, i: nat)
    requires i < |walk| && !IsPageFile(walk[i])
    ensures Discovered(root, walk) == Discovered(root, walk[..i] + walk[i + 1..])
  {
    assert walk == walk[..i + 1] + walk[i + 1..];
    assert walk[..i + 1] == walk[..i] + [walk[i]];
    DiscoveredSnoc(root, walk[..i], walk[i]);
    DiscoveredAppend(root, walk[..i + 1], walk[i + 1..]);
    DiscoveredAppend(root, walk[..i], walk[i + 1..]);
  }

  /** Every discovered page is the page of some page file of the walk. */
  lemma {:induction false} DiscoveredFromPageFiles(root: Path, walk: seq<WalkEntry>, k: nat)
    requires k < |Discovered(root, walk)|
    ensures exists i :: 0 <= i < |walk| && IsPageFile(walk[i]) && Discovered(root, walk)[k] == PageFor(root, walk[i])
  {
    var w, e := walk[..|walk| - 1], walk[|walk| - 1];
    var before := Discovered(root, w);
    assert Discovered(root, walk) == before + PagesOf(root, e);
    if k < |before| {
      DiscoveredFromPageFiles(root, w, k);
      var i :| 0 <= i < |w| && IsPageFile(w[i]) && before[k] == PageFor(root, w[i]);
      assert w[i] == walk[i];
    } else {
      assert IsPageFile(e) && Discovered(root, walk)[k] == PageFor(root, e);
    }
  }

  /** A "content.md" file is a sub-page even when it sits directly under the root. */
  lemma ContentFileIsSubPage(root: Path, e: WalkEntry)
    requires EqualFold(e.name, ContentFile)
    ensures PageFor(root, e).kind == SubPage
  {
    assert |Fold(e.name)| == |ContentFile|;
  }

  /** An "index.md" file any number of directories below the root is a sub-page. */
  lemma NestedIndexIsSubPage(root: Path, ds: Path, e: WalkEntry)
    requires IsCleanPath(root + ds) && ds != []
    requires Dir(e.path) == root + ds
    ensures PageFor(root, e).kind == SubPage
  {
    if root == [] {
      assert root + ds == ds;
      RenderIsDot(ds);
    } else {
      RenderGrows(root, ds);
      assert |Fold(Render(root + ds))| > |Fold(Render(root))|;
    }
  }

  /** The root's own "index.md", whatever its case, is the index page. */
  lemma RootIndexIsIndex(root: Path, e: WalkEntry)
    requires e.path != [] && Dir(e.path) == root && EqualFold(e.name, IndexFile)
    ensures PageFor(root, e).kind == Index
  {
  }

  /** A walk entry as the walk of a clean root reports it: a clean path ending in the entry's name. */
  predicate WellFormed(e: WalkEntry)
  {
    e.path != [] && IsCleanPath(e.path) && e.name == e.path[|e.path| - 1]
  }

  /** The text of an entry's path with letters folded: the name of the file on a case-insensitive file system. */
  function FoldedPath(e: WalkEntry): string
  {
    Fold(Render(e.path))
  }

  /** No two walked paths differ only in letter case, as on a case-insensitive file system. */
  predicate CaseDistinct(walk: seq<WalkEntry>)
  {
    forall i, j :: 0 <= i < j < |walk| ==> FoldedPath(walk[i]) != FoldedPath(walk[j])
  }

  function CountIndex(pages: seq<Page>): nat
  {
    if pages == [] then 0
    else CountIndex(pages[..|pages| - 1]) + if pages[|pages| - 1].kind == Index then 1 else 0
  }

  lemma {:induction false} CountIndexAppend(a: seq<Page>, b: seq<Page>)
    ensures CountIndex(a + b) == CountIndex(a) + CountIndex(b)
  {
    if b == [] {
      assert a + b == a;
    } else {
      assert (a + b)[..|a + b| - 1] == a + b[..|b| - 1];
      CountIndexAppend(a, b[..|b| - 1]);
    }
  }

  /** Two index entries of one root name the same file up to case. */
  lemma IndexEntriesFoldEqual(root: Path, e: WalkEntry, f: WalkEntry)
    requires IsCleanPath(root)
    requires WellFormed(e) && WellFormed(f) && IsIndexEntry(root, e) && IsIndexEntry(root, f)
    ensures FoldedPath(e) == FoldedPath(f)
  {
    var de, df := Dir(e.path), Dir(f.path);
    assert e.path == de + [e.name] && f.path == df + [f.name];
    RenderSnoc(de, e.path[|e.path| - 1]);
    RenderSnoc(df, f.path[|f.path| - 1]);
    RenderIsDot(de);
    RenderIsDot(df);
    RenderIsDot(root);
    if de != [] {
      FoldConcat(Render(de) + "/", e.name);
      FoldConcat(Render(de), "/");
      FoldConcat(Render(df) + "/", f.name);
      FoldConcat(Render(df), "/");
    }
  }

  /** How many walked entries are the root's index file. */
  function CountIndexEntries(root: Path, walk: seq<WalkEntry>): nat
  {
    if walk == [] then 0
    else CountIndexEntries(root, walk[..|walk| - 1]) + if IsIndexEntry(root, walk[|walk| - 1]) then 1 else 0
  }

  /** Discovery yields one index page per walked index file of the root. */
  lemma {:induction false} IndexPagesAreIndexEntries(root: Path, walk: seq<WalkEntry>)
    ensures CountIndex(Discovered(root, walk)) == CountIndexEntries(root, walk)
  {
    if walk != [] {
      var w, e := walk[..|walk| - 1], walk[|walk| - 1];
      IndexPagesAreIndexEntries(root, w);
      CountIndexAppend(Discovered(root, w), PagesOf(root, e));
      CountIndexOfEntry(root, e);
    }
  }

  lemma {:induction false} NoIndexEntries(root: Path, walk: seq<WalkEntry>)
    requires forall i :: 0 <= i < |walk| ==> !IsIndexEntry(root, walk[i])
    ensures CountIndexEntries(root, walk) == 0
  {
    if walk != [] {
      var w := walk[..|walk| - 1];
      assert forall i :: 0 <= i < |w| ==> w[i] == walk[i];
      NoIndexEntries(root, w);
    }
  }

  lemma {:induction false} OneIndexEntry(root: Path, walk: seq<WalkEntry>, k: nat)
    requires k < |walk| && IsIndexEntry(root, walk[k])
    requires forall i :: 0 <= i < |walk| && i != k ==> !IsIndexEntry(root, walk[i])
    ensures CountIndexEntries(root, walk) == 1
  {
    var w := walk[..|walk| - 1];
    assert forall i :: 0 <= i < |w| ==> w[i] == walk[i];
    if k == |walk| - 1 {
      NoIndexEntries(root, w);
    } else {
      OneIndexEntry(root, w, k);
    }
  }

  /** On a walk whose paths are distinct up to case, the root has at most one index file. */
  lemma IndexEntryUnique(root: Path, walk: seq<WalkEntry>, k: nat)
    requires IsCleanPath(root)
    requires forall i :: 0 <= i < |walk| ==> WellFormed(walk[i])
    requires CaseDistinct(walk)
    requires k < |walk| && IsIndexEntry(root, walk[k])
    ensures forall i :: 0 <= i < |walk| && i != k ==> !IsIndexEntry(root, walk[i])
  {
    forall i | 0 <= i < |walk| && i != k && IsIndexEntry(root, walk[i]) ensures false {
      IndexEntriesFoldEqual(root, walk[i], walk[k]);
    }
  }

  /**
    Discovery yields exactly one index page when the root's index file is among
    the walked files, at position k, and no two walked paths differ only in
    case. On a case-sensitive file system holding both "index.md" and
    "INDEX.md" at the root, the second condition fails and both become index
    pages.
   */
  lemma ExactlyOneIndex(root: Path, walk: seq<WalkEntry>, k: nat)
    requires IsCleanPath(root)
    requires forall i :: 0 <= i < |walk| ==> WellFormed(walk[i])
    requires CaseDistinct(walk)
    requires k < |walk| && IsIndexEntry(root, walk[k])
    ensures CountIndex(Discovered(root, walk)) == 1
  {
    IndexEntryUnique(root, walk, k);
    OneIndexEntry(root, walk, k);
    IndexPagesAreIndexEntries(root, walk);
  }

  /** Two root index files that differ only in case both become index pages. */
  lemma TwoIndexPagesOnCaseSensitiveFileSystem()
    ensures var root: Path := [ParentDirectory];
            var walk := [WalkEntry([ParentDirectory, "INDEX.md"], "INDEX.md", false),
                         WalkEntry([ParentDirectory, "index.md"], "index.md", false)];
            CountIndex(Discovered(root, walk)) == 2
  {
    var root: Path := [ParentDirectory];
    var a := WalkEntry([ParentDirectory, "INDEX.md"], "INDEX.md", false);
    var b := WalkEntry([ParentDirectory, "index.md"], "index.md", false);
    assert Fold("INDEX.md") == "index.md";
    assert Fold("index.md") == "index.md";
    assert Render(Dir(a.path)) == Render(Dir(b.path)) == Render(root) == ParentDirectory;
    assert IsIndexEntry(root, a) && IsIndexEntry(root, b);
    assert [a][..0] == [];
    assert CountIndexEntries(root, [a]) == 1;
    assert [a, b][..1] == [a];
    assert CountIndexEntries(root, [a, b]) == 2;
    IndexPagesAreIndexEntries(root, [a, b]);
  }
}
