/** The documentation gate as a whole: the pruned walk finds the pages, the screenshot gate judges them.
    What the gate promises is stated of the directory tree itself. */
module DocsGate {
  import opened Collections
  import opened PageWalk
  import opened ScreenshotGate

  /** `scan` finds the includes and images of a page body; `assets` is the directory of the screenshots. */
  datatype Docs = Docs(
    site: Site, tree: Tree, assets: Path, images: map<string, seq<byte>>, template: bool,
    hash: seq<byte> -> string, scan: (Path, string) -> ScreenshotGate.Page, name: Path -> string)

  datatype Listing = Listing(count: int, entries: seq<ScreenshotGate.Entry>, pngs: seq<string>)

  /** A screenshot is subject to the same exclusion as a page. */
  function AssetsOf(d: Docs): Assets {
    Assets(d.images, (f: string) => Excluded(d.site.fits, d.assets + [f], d.site.excludes), d.hash, d.template)
  }

  /** The screenshots are those of the asset directory; one is excluded exactly if a component of its path is
      left out or a pattern covers the path. */
  lemma AssetsAre(d: Docs, f: string)
    ensures AssetsOf(d).images == d.images && AssetsOf(d).hash == d.hash && AssetsOf(d).template == d.template
    ensures AssetsOf(d).excluded(f) <==>
            || (exists i :: 0 <= i < |d.assets + [f]| && LeftOut((d.assets + [f])[i]))
            || exists pattern :: Excludes(d.site.excludes, pattern) && Under(d.site.fits, d.assets + [f], pattern)
  {
    ExcludedIff(d.site.fits, d.assets + [f], d.site.excludes);
  }

  function Files(d: Docs): seq<Path> {
    AllFiles(d.tree, [])
  }

  /** A published file of the tree, whatever the walk prunes. */
  ghost predicate IsPublished(d: Docs, f: Path) {
    IsPage(d.site, d.tree, f)
  }

  function Body(d: Docs, f: Path): string {
    if d.site.read(f).Page? then d.site.read(f).body else ""
  }

  function Scanned(d: Docs, f: Path): ScreenshotGate.Page {
    d.scan(f, Body(d, f))
  }

  /** A page is scanned under its own path, for its own body. */
  lemma ScannedIs(d: Docs, f: Path)
    ensures d.site.read(f).Page? ==> Scanned(d, f) == d.scan(f, d.site.read(f).body)
  {
  }

  /** Every published page of the tree is well written and shows a manifest file, and every manifest file is
      shown on one of them. */
  ghost predicate TreeInOrder(d: Docs, names: set<string>, files: seq<string>) {
    TreePagesGood(d, names, files) && FilesShown(d, files)
  }

  ghost predicate TreePagesGood(d: Docs, names: set<string>, files: seq<string>) {
    forall f | IsPublished(d, f) :: GoodPage(AssetsOf(d), names, files, Scanned(d, f))
  }

  ghost predicate FilesShown(d: Docs, files: seq<string>) {
    forall g <- files :: ShownInTheTree(d, g)
  }

  ghost predicate ShownInTheTree(d: Docs, g: string) {
    exists f :: IsPublished(d, f) && ShowsImage(AssetsOf(d), Scanned(d, f), g)
  }

  ghost predicate SomePublished(d: Docs) {
    exists f :: IsPublished(d, f)
  }

  ghost predicate NoneMalformed(d: Docs) {
    forall f | IsPublished(d, f) :: d.site.read(f).Page?
  }

  /** The tree has published pages, all with sound front matter; the manifest and the pages are in order. */
  ghost predicate SiteInOrder(d: Docs, l: Listing) {
    && SomePublished(d) && NoneMalformed(d)
    && ManifestInOrder(AssetsOf(d), l.count, l.entries, l.pngs)
    && TreeInOrder(d, ByName(l.entries).Keys, Names(l.entries))
  }

  /** The pages found, in some order. */
  method Items(pages: map<Path, string>) returns (paths: seq<Path>)
    ensures forall f :: f in paths <==> f in pages
  {
    paths := [];
    var rest := pages.Keys;
    while rest != {}
      invariant forall f :: f in pages <==> f in paths || f in rest
      decreases rest
    {
      var f :| f in rest;
      paths := paths + [f];
      rest := rest - {f};
    }
  }

  function ScanAll(d: Docs, paths: seq<Path>): (pages: seq<ScreenshotGate.Page>)
    ensures forall page :: page in pages <==> exists f :: f in paths && page == Scanned(d, f)
  {
    if paths == [] then [] else
    var n := |paths| - 1;
    assert forall f :: f in paths <==> f in paths[..n] || f == paths[n];
    assert forall page :: page in ScanAll(d, paths[..n]) + [Scanned(d, paths[n])] <==>
                          page in ScanAll(d, paths[..n]) || page == Scanned(d, paths[n]);
    ScanAll(d, paths[..n]) + [Scanned(d, paths[n])]
  }

  function NamesOf(d: Docs, files: seq<Path>): seq<string> {
    seq(|files|, i requires 0 <= i < |files| => d.name(files[i]))
  }

  /** `pages` are the scans of the published files. */
  ghost predicate Scans(d: Docs, pages: seq<ScreenshotGate.Page>) {
    && (forall page <- pages :: exists f :: IsPublished(d, f) && page == Scanned(d, f))
    && (forall f | IsPublished(d, f) :: Scanned(d, f) in pages)
  }

  lemma ScannedPages(d: Docs, paths: seq<Path>)
    requires forall f :: f in paths <==> IsPublished(d, f)
    ensures Scans(d, ScanAll(d, paths))
    ensures ScanAll(d, paths) != [] <==> SomePublished(d)
  {
    var pages := ScanAll(d, paths);
    forall page <- pages
      ensures exists f :: IsPublished(d, f) && page == Scanned(d, f)
    {
      var f :| f in paths && page == Scanned(d, f);
      assert IsPublished(d, f);
    }
    forall f | IsPublished(d, f)
      ensures Scanned(d, f) in pages
    {
      assert f in paths;
    }
    if pages != [] {
      assert pages[0] in pages;
    }
  }

  lemma PagesOfTheTree(d: Docs, names: set<string>, files: seq<string>, pages: seq<ScreenshotGate.Page>)
    requires Scans(d, pages)
    ensures PagesInOrder(AssetsOf(d), names, files, pages) <==> TreeInOrder(d, names, files)
  {
    var a := AssetsOf(d);
    forall g <- files
      ensures ShownAmong(a, pages, g) <==> ShownInTheTree(d, g)
    {
      ShownEither(d, pages, g);
    }
    if TreeInOrder(d, names, files) {
      forall page <- pages
        ensures GoodPage(a, names, files, page)
      {
      }
    }
  }

  lemma ShownEither(d: Docs, pages: seq<ScreenshotGate.Page>, g: string)
    requires Scans(d, pages)
    ensures ShownAmong(AssetsOf(d), pages, g) <==> ShownInTheTree(d, g)
  {
  }

  /** The gate over the whole tree: it reports no problem if and only if the site is in order. */
  method Gate(d: Docs, l: Listing) returns (problems: seq<Problem>)
    ensures problems == [] <==> SiteInOrder(d, l)
  {
    var found := PublishedPages(d.site, d.tree);
    var paths := Items(found.pages);
    var input := Input(l.count, l.entries, l.pngs, ScanAll(d, paths), NamesOf(d, found.malformed));
    problems := Validate(AssetsOf(d), input);
    GateIsOfTheTree(d, l, found, paths, input);
  }

  lemma GateIsOfTheTree(d: Docs, l: Listing, found: Found, paths: seq<Path>, input: Input)
    requires AllNamed(Files(d)) && Exact(d.site, Files(d), found)
    requires forall f :: f in found.pages <==> IsPublished(d, f)
    requires forall f :: f in paths <==> f in found.pages
    requires input == Input(l.count, l.entries, l.pngs, ScanAll(d, paths), NamesOf(d, found.malformed))
    ensures Publishable(AssetsOf(d), input) <==> SiteInOrder(d, l)
  {
    FoundIsPublished(d, found, paths);
    ScanIsOfTheTree(d, ByName(l.entries).Keys, Names(l.entries), paths);
    assert input.malformed == [] <==> found.malformed == [];
    InOrderIff(d, l, input);
  }

  lemma ScanIsOfTheTree(d: Docs, names: set<string>, files: seq<string>, paths: seq<Path>)
    requires forall f :: f in paths <==> IsPublished(d, f)
    ensures ScanAll(d, paths) != [] <==> SomePublished(d)
    ensures PagesInOrder(AssetsOf(d), names, files, ScanAll(d, paths)) <==> TreeInOrder(d, names, files)
  {
    ScannedPages(d, paths);
    PagesOfTheTree(d, names, files, ScanAll(d, paths));
  }

  lemma FoundIsPublished(d: Docs, found: Found, paths: seq<Path>)
    requires AllNamed(Files(d)) && Exact(d.site, Files(d), found)
    requires forall f :: f in found.pages <==> IsPublished(d, f)
    requires forall f :: f in paths <==> f in found.pages
    ensures forall f :: f in paths <==> IsPublished(d, f)
    ensures found.malformed == [] <==> NoneMalformed(d)
  {
    if found.malformed != [] {
      assert found.malformed[0] in found.malformed;
    }
    forall f | IsPublished(d, f) && !d.site.read(f).Page?
      ensures f in found.malformed
    {
      assert f in found.pages && d.site.read(f).MalformedFrontMatter?;
    }
  }

  lemma InOrderIff(d: Docs, l: Listing, input: Input)
    requires input.count == l.count && input.entries == l.entries && input.pngs == l.pngs
    requires input.pages != [] <==> SomePublished(d)
    requires input.malformed == [] <==> NoneMalformed(d)
    requires PagesInOrder(AssetsOf(d), ByName(l.entries).Keys, Names(l.entries), input.pages)
        <==> TreeInOrder(d, ByName(l.entries).Keys, Names(l.entries))
    ensures Publishable(AssetsOf(d), input) <==> SiteInOrder(d, l)
  {
  }
}
