/** Which documentation pages are published: the glob matcher with `**`, the exclusion rules, and the
    directory walk that never enters an excluded directory. Matching of one path component
    (fnmatchcase) and the reading of a file are parameters. */
module PageWalk {

  type Path = seq<string>

  type Pattern = seq<string>

  const ANY_DEPTH := "**"

  // ----- The matcher -----

  predicate GlobMatches(fits: (string, string) -> bool, parts: Path, pattern: Pattern)
    decreases |pattern|, |parts|
  {
    if pattern == [] then parts == []
    else if pattern[0] == ANY_DEPTH then
      GlobMatches(fits, parts, pattern[1..]) || (parts != [] && GlobMatches(fits, parts[1..], pattern))
    else
      parts != [] && fits(parts[0], pattern[0]) && GlobMatches(fits, parts[1..], pattern[1..])
  }

  function Flatten(segments: seq<Path>): Path {
    if segments == [] then [] else segments[0] + Flatten(segments[1..])
  }

  /** `segments` lays the path out along the pattern: any number of components for each `**`, one
      fitting component for everything else. */
  ghost predicate Expansion(fits: (string, string) -> bool, segments: seq<Path>, parts: Path, pattern: Pattern) {
    && |segments| == |pattern|
    && Flatten(segments) == parts
    && forall i | 0 <= i < |pattern| ::
         pattern[i] != ANY_DEPTH ==> |segments[i]| == 1 && fits(segments[i][0], pattern[i])
  }

  lemma {:induction false} MatchHasExpansion(fits: (string, string) -> bool, parts: Path, pattern: Pattern)
    returns (segments: seq<Path>)
    requires GlobMatches(fits, parts, pattern)
    ensures Expansion(fits, segments, parts, pattern)
    decreases |pattern|, |parts|
  {
    if pattern == [] {
      segments := [];
    } else if pattern[0] == ANY_DEPTH && GlobMatches(fits, parts, pattern[1..]) {
      var rest := MatchHasExpansion(fits, parts, pattern[1..]);
      segments := [[]] + rest;
      assert segments[1..] == rest;
    } else if pattern[0] == ANY_DEPTH {
      var more := MatchHasExpansion(fits, parts[1..], pattern);
      segments := more[0 := [parts[0]] + more[0]];
      assert segments[1..] == more[1..];
      assert parts == [parts[0]] + parts[1..];
      assert Flatten(segments) == ([parts[0]] + more[0]) + Flatten(more[1..]);
    } else {
      var rest := MatchHasExpansion(fits, parts[1..], pattern[1..]);
      segments := [[parts[0]]] + rest;
      assert segments[1..] == rest;
      assert parts == [parts[0]] + parts[1..];
    }
  }

  lemma {:induction false} ExpansionMatches(fits: (string, string) -> bool, segments: seq<Path>, parts: Path, pattern: Pattern)
    requires Expansion(fits, segments, parts, pattern)
    ensures GlobMatches(fits, parts, pattern)
    decreases |pattern|, |parts|
  {
    if pattern != [] {
      var first := segments[0];
      assert parts == first + Flatten(segments[1..]);
      if pattern[0] == ANY_DEPTH && first != [] {
        var shorter := segments[0 := first[1..]];
        assert shorter[1..] == segments[1..];
        assert parts[1..] == first[1..] + Flatten(segments[1..]);
        ExpansionMatches(fits, shorter, parts[1..], pattern);
      } else {
        assert pattern[0] == ANY_DEPTH ==> parts == Flatten(segments[1..]);
        assert pattern[0] != ANY_DEPTH ==> parts[1..] == Flatten(segments[1..]) && parts[0] == first[0];
        ExpansionMatches(fits, segments[1..], if pattern[0] == ANY_DEPTH then parts else parts[1..], pattern[1..]);
      }
    }
  }

  /** The matcher accepts a path exactly when the pattern has an expansion that spells it. */
  lemma MatchesIffExpansion(fits: (string, string) -> bool, parts: Path, pattern: Pattern)
    ensures GlobMatches(fits, parts, pattern) <==> exists segments :: Expansion(fits, segments, parts, pattern)
  {
    if GlobMatches(fits, parts, pattern) {
      var segments := MatchHasExpansion(fits, parts, pattern);
    }
    forall segments | Expansion(fits, segments, parts, pattern)
      ensures GlobMatches(fits, parts, pattern)
    {
      ExpansionMatches(fits, segments, parts, pattern);
    }
  }

  // ----- Exclusion -----

  const VENDOR_PATTERNS: seq<Pattern> :=
    [["vendor", "bundle"], ["vendor", "cache"], ["vendor", "gems"], ["vendor", "ruby"]]

  predicate Reserved(part: string) {
    || (part != "" && part[0] in {'_', '.', '#'})
    || (part != "" && part[|part| - 1] == '~')
    || part == "node_modules"
  }

  predicate ExcludedBy(fits: (string, string) -> bool, parts: Path, pattern: Pattern) {
    || (|pattern| == 1 && exists i :: 0 <= i < |parts| && fits(parts[i], pattern[0]))
    || exists end :: 1 <= end <= |parts| && GlobMatches(fits, parts[..end], pattern)
  }

  predicate Excluded(fits: (string, string) -> bool, parts: Path, excludes: seq<Pattern>) {
    || (exists i :: 0 <= i < |parts| && Reserved(parts[i]))
    || (exists pattern <- VENDOR_PATTERNS + excludes :: ExcludedBy(fits, parts, pattern))
  }

  /** Exclusion of a path is exclusion of everything below it. */
  lemma ExclusionIsInherited(fits: (string, string) -> bool, parts: Path, below: Path, excludes: seq<Pattern>)
    requires Excluded(fits, parts, excludes)
    ensures Excluded(fits, parts + below, excludes)
  {
    var all := parts + below;
    if i :| 0 <= i < |parts| && Reserved(parts[i]) {
      assert Reserved(all[i]);
    } else {
      var pattern :| pattern in VENDOR_PATTERNS + excludes && ExcludedBy(fits, parts, pattern);
      if end :| 1 <= end <= |parts| && GlobMatches(fits, parts[..end], pattern) {
        assert all[..end] == parts[..end];
      } else {
        var i :| 0 <= i < |parts| && fits(parts[i], pattern[0]);
        assert all[i] == parts[i];
      }
      assert ExcludedBy(fits, all, pattern);
    }
  }

  // ----- What exclusion is, said of the components alone -----

  /** A component that Jekyll's page reader leaves out. */
  predicate LeftOut(part: string) {
    || (|part| > 0 && (part[0] == '_' || part[0] == '.' || part[0] == '#' || part[|part| - 1] == '~'))
    || part == "node_modules"
  }

  /** The pattern is one of the built-in ones or of those configured. */
  ghost predicate Excludes(excludes: seq<Pattern>, pattern: Pattern) {
    || pattern == ["vendor", "bundle"] || pattern == ["vendor", "cache"]
    || pattern == ["vendor", "gems"] || pattern == ["vendor", "ruby"]
    || exists i :: 0 <= i < |excludes| && excludes[i] == pattern
  }

  lemma ExcludesIff(excludes: seq<Pattern>, pattern: Pattern)
    ensures pattern in VENDOR_PATTERNS + excludes <==> Excludes(excludes, pattern)
  {
    assert VENDOR_PATTERNS[0] == ["vendor", "bundle"] && VENDOR_PATTERNS[1] == ["vendor", "cache"];
    assert VENDOR_PATTERNS[2] == ["vendor", "gems"] && VENDOR_PATTERNS[3] == ["vendor", "ruby"];
    assert pattern in VENDOR_PATTERNS + excludes <==> pattern in VENDOR_PATTERNS || pattern in excludes;
  }

  /** A path is under this pattern: some component fits it, if it has one component only; or some leading part
      of the path, a directory or the file itself, can be laid out along it. */
  ghost predicate Under(fits: (string, string) -> bool, parts: Path, pattern: Pattern) {
    || (|pattern| == 1 && exists i :: 0 <= i < |parts| && fits(parts[i], pattern[0]))
    || exists end, segments :: 1 <= end <= |parts| && Expansion(fits, segments, parts[..end], pattern)
  }

  lemma UnderIff(fits: (string, string) -> bool, parts: Path, pattern: Pattern)
    ensures ExcludedBy(fits, parts, pattern) <==> Under(fits, parts, pattern)
  {
    forall end | 1 <= end <= |parts|
      ensures GlobMatches(fits, parts[..end], pattern) <==> exists segments :: Expansion(fits, segments, parts[..end], pattern)
    {
      MatchesIffExpansion(fits, parts[..end], pattern);
    }
  }

  /** A path is excluded if and only if some component is one to leave out, or it is under a pattern. */
  lemma ExcludedIff(fits: (string, string) -> bool, parts: Path, excludes: seq<Pattern>)
    ensures Excluded(fits, parts, excludes) <==>
            || (exists i :: 0 <= i < |parts| && LeftOut(parts[i]))
            || exists pattern :: Excludes(excludes, pattern) && Under(fits, parts, pattern)
  {
    forall i | 0 <= i < |parts|
      ensures Reserved(parts[i]) <==> LeftOut(parts[i])
    {
    }
    forall pattern: Pattern
      ensures pattern in VENDOR_PATTERNS + excludes && ExcludedBy(fits, parts, pattern) <==>
              Excludes(excludes, pattern) && Under(fits, parts, pattern)
    {
      ExcludesIff(excludes, pattern);
      UnderIff(fits, parts, pattern);
    }
  }

  // ----- The walk -----

  /** A directory: its files and its subdirectories, in the order in which they are visited. */
  datatype Tree = Tree(files: seq<string>, dirs: seq<Entry>)
  datatype Entry = Entry(name: string, tree: Tree)

  /** What a file turns out to be once read. */
  datatype PageFile = Static | MalformedFrontMatter | Unpublished | Page(body: string)

  datatype Site = Site(
    fits: (string, string) -> bool, excludes: seq<Pattern>, isPage: string -> bool, read: Path -> PageFile)

  /** The pages found so far, and the files whose front matter is malformed. */
  datatype Found = Found(pages: map<Path, string>, malformed: seq<Path>)

  function FilesIn(path: Path, files: seq<string>): seq<Path> {
    seq(|files|, i requires 0 <= i < |files| => path + [files[i]])
  }

  /** Every file of the tree, nothing pruned. */
  function AllFiles(tree: Tree, path: Path): seq<Path>
    decreases tree, 1
  {
    FilesIn(path, tree.files) + FilesBelow(tree, path, |tree.dirs|)
  }

  /** The files of the first `n` subdirectories. */
  function FilesBelow(tree: Tree, path: Path, n: nat): seq<Path>
    requires n <= |tree.dirs|
    decreases tree, 0, n
  {
    if n == 0 then []
    else FilesBelow(tree, path, n - 1) + AllFiles(tree.dirs[n - 1].tree, path + [tree.dirs[n - 1].name])
  }

  /** The tree has a file at this path. */
  ghost predicate InTree(tree: Tree, file: Path)
    decreases |file|
  {
    || (|file| == 1 && exists i :: 0 <= i < |tree.files| && tree.files[i] == file[0])
    || (|file| > 1 && exists i :: 0 <= i < |tree.dirs| && tree.dirs[i].name == file[0] && InTree(tree.dirs[i].tree, file[1..]))
  }

  /** No file is left out of the walk's order, and none is in it that is not in the tree. */
  lemma {:induction false} AllFilesIff(tree: Tree, path: Path, file: Path)
    ensures path + file in AllFiles(tree, path) <==> InTree(tree, file)
    decreases tree, 1
  {
    FilesBelowIff(tree, path, |tree.dirs|, file);
    var here := FilesIn(path, tree.files);
    if path + file in here {
      var i :| 0 <= i < |here| && here[i] == path + file;
      assert file == (path + file)[|path|..] == [tree.files[i]];
    }
    if |file| == 1 && file[0] in tree.files {
      var i :| 0 <= i < |tree.files| && tree.files[i] == file[0];
      assert here[i] == path + file;
    }
  }

  lemma {:induction false} FilesBelowIff(tree: Tree, path: Path, n: nat, file: Path)
    requires n <= |tree.dirs|
    ensures path + file in FilesBelow(tree, path, n) <==>
            |file| > 1 && exists i :: 0 <= i < n && tree.dirs[i].name == file[0] && InTree(tree.dirs[i].tree, file[1..])
    decreases tree, 0, n
  {
    if n > 0 {
      FilesBelowIff(tree, path, n - 1, file);
      var dir := tree.dirs[n - 1];
      var sub := path + [dir.name];
      if |file| > 0 && file[0] == dir.name {
        assert path + file == sub + file[1..];
        AllFilesIff(dir.tree, sub, file[1..]);
        FilesLieBelow(dir.tree, sub);
      } else {
        FilesLieBelow(dir.tree, sub);
        var all := AllFiles(dir.tree, sub);
        forall k | 0 <= k < |all|
          ensures all[k] != path + file
        {
          assert sub < all[k] && all[k][|path|] == sub[|path|] == dir.name;
        }
      }
    }
  }

  predicate Hidden(site: Site, file: Path) {
    Excluded(site.fits, file, site.excludes)
  }

  /** What one file adds, wherever it is met. */
  function Visit(site: Site, file: Path, found: Found): Found
    requires file != []
  {
    if !site.isPage(file[|file| - 1]) || Hidden(site, file) then found else
    match site.read(file)
    case Static => found
    case Unpublished => found
    case MalformedFrontMatter => Found(found.pages[file := ""], found.malformed + [file])
    case Page(body) => Found(found.pages[file := body], found.malformed)
  }

  predicate AllNamed(files: seq<Path>) {
    forall i | 0 <= i < |files| :: files[i] != []
  }

  /** Visiting a list of files one after the other. */
  function VisitAll(site: Site, files: seq<Path>, found: Found): Found
    requires AllNamed(files)
  {
    if files == [] then found
    else Visit(site, files[|files| - 1], VisitAll(site, files[..|files| - 1], found))
  }

  lemma {:induction false} VisitAppend(site: Site, a: seq<Path>, b: seq<Path>, found: Found)
    requires AllNamed(a) && AllNamed(b)
    ensures VisitAll(site, a + b, found) == VisitAll(site, b, VisitAll(site, a, found))
    decreases |b|
  {
    if b == [] {
      assert a + b == a;
    } else {
      assert (a + b)[..|a + b| - 1] == a + b[..|b| - 1];
      VisitAppend(site, a, b[..|b| - 1], found);
    }
  }

  predicate AllBelow(dir: Path, files: seq<Path>) {
    forall i | 0 <= i < |files| :: dir < files[i]
  }

  lemma {:induction false} FilesLieBelow(tree: Tree, path: Path)
    ensures AllBelow(path, AllFiles(tree, path))
    decreases tree, 1
  {
    DirsLieBelow(tree, path, |tree.dirs|);
  }

  lemma {:induction false} DirsLieBelow(tree: Tree, path: Path, n: nat)
    requires n <= |tree.dirs|
    ensures AllBelow(path, FilesBelow(tree, path, n))
    decreases tree, 0, n
  {
    if n > 0 {
      DirsLieBelow(tree, path, n - 1);
      var sub := path + [tree.dirs[n - 1].name];
      FilesLieBelow(tree.dirs[n - 1].tree, sub);
      var files := AllFiles(tree.dirs[n - 1].tree, sub);
      forall i | 0 <= i < |files|
        ensures path < files[i]
      {
        assert sub < files[i] && path < sub;
      }
    }
  }

  lemma NamedBelow(tree: Tree, path: Path, n: nat)
    requires n <= |tree.dirs|
    ensures AllNamed(AllFiles(tree, path)) && AllNamed(FilesBelow(tree, path, n)) && AllNamed(FilesIn(path, tree.files))
  {
    FilesLieBelow(tree, path);
    DirsLieBelow(tree, path, n);
  }

  /** Visiting everything under an excluded directory adds nothing. */
  lemma {:induction false} HiddenFilesAddNothing(site: Site, files: seq<Path>, dir: Path, found: Found)
    requires Hidden(site, dir) && AllNamed(files) && AllBelow(dir, files)
    ensures VisitAll(site, files, found) == found
    decreases |files|
  {
    if files != [] {
      HiddenFilesAddNothing(site, files[..|files| - 1], dir, found);
      var f := files[|files| - 1];
      ExclusionIsInherited(site.fits, dir, f[|dir|..], site.excludes);
      assert f == dir + f[|dir|..];
    }
  }

  /** The files of one directory. */
  method VisitFiles(site: Site, tree: Tree, path: Path, start: Found) returns (found: Found)
    ensures AllNamed(FilesIn(path, tree.files)) && found == VisitAll(site, FilesIn(path, tree.files), start)
  {
    found := start;
    ghost var here := FilesIn(path, tree.files);
    for i := 0 to |tree.files|
      invariant found == VisitAll(site, here[..i], start)
    {
      var file := path + [tree.files[i]];
      assert here[..i + 1][..i] == here[..i];
      if !site.isPage(tree.files[i]) || Hidden(site, file) { continue; }
      match site.read(file)
      case Static =>
      case Unpublished =>
      case MalformedFrontMatter => found := Found(found.pages[file := ""], found.malformed + [file]);
      case Page(body) => found := Found(found.pages[file := body], found.malformed);
    }
    assert here[..|here|] == here;
  }

  /** The walk. Excluded subdirectories are dropped from the list before it descends; the outcome is that
      of visiting every file of the tree. */
  method Walk(site: Site, tree: Tree, path: Path, start: Found) returns (found: Found)
    ensures AllNamed(AllFiles(tree, path))
    ensures found == VisitAll(site, AllFiles(tree, path), start)
    decreases tree
  {
    NamedBelow(tree, path, |tree.dirs|);
    found := VisitFiles(site, tree, path, start);
    ghost var here := FilesIn(path, tree.files);
    ghost var mid := found;
    for n := 0 to |tree.dirs|
      invariant AllNamed(FilesBelow(tree, path, n))
      invariant found == VisitAll(site, FilesBelow(tree, path, n), mid)
    {
      NamedBelow(tree, path, n + 1);
      var dir := tree.dirs[n];
      var sub := path + [dir.name];
      NamedBelow(dir.tree, sub, |dir.tree.dirs|);
      VisitAppend(site, FilesBelow(tree, path, n), AllFiles(dir.tree, sub), mid);
      if Hidden(site, sub) {
        FilesLieBelow(dir.tree, sub);
        HiddenFilesAddNothing(site, AllFiles(dir.tree, sub), sub, found);
      } else {
        found := Walk(site, dir.tree, sub, found);
      }
    }
    VisitAppend(site, here, FilesBelow(tree, path, |tree.dirs|), start);
  }

  /** A page of the site: not excluded, of a page type, and either published or broken. A broken page
      counts, so that it cannot escape the coverage rules. */
  predicate Published(site: Site, file: Path)
    requires file != []
  {
    && site.isPage(file[|file| - 1]) && !Hidden(site, file)
    && (site.read(file).Page? || site.read(file).MalformedFrontMatter?)
  }

  /** The pages are exactly the published files among `files`, each with its own body. */
  ghost predicate Exact(site: Site, files: seq<Path>, found: Found)
    requires AllNamed(files)
  {
    && (forall f :: f in found.pages <==> f in files && f != [] && Published(site, f))
    && (forall f <- found.pages :: found.pages[f] == if site.read(f).Page? then site.read(f).body else "")
    && (forall f :: f in found.malformed <==> f in found.pages && site.read(f).MalformedFrontMatter?)
  }

  lemma VisitIsExact(site: Site, files: seq<Path>, f: Path, found: Found)
    requires AllNamed(files) && f != [] && Exact(site, files, found)
    ensures Exact(site, files + [f], Visit(site, f, found))
  {
    var found' := Visit(site, f, found);
    forall g
      ensures g in found'.pages <==> g in files + [f] && g != [] && Published(site, g)
    {
      assert g in files + [f] <==> g in files || g == f;
    }
  }

  lemma {:induction false} VisitFindsThePublished(site: Site, files: seq<Path>)
    requires AllNamed(files)
    ensures Exact(site, files, VisitAll(site, files, Found(map[], [])))
    decreases |files|
  {
    if files != [] {
      var n := |files| - 1;
      VisitFindsThePublished(site, files[..n]);
      VisitIsExact(site, files[..n], files[n], VisitAll(site, files[..n], Found(map[], [])));
      assert files == files[..n] + [files[n]];
    }
  }

  /** Walking with pruning from the root finds exactly the published files of the whole tree. */
  method PublishedPages(site: Site, tree: Tree) returns (found: Found)
    ensures AllNamed(AllFiles(tree, []))
    ensures Exact(site, AllFiles(tree, []), found)
    ensures forall f :: f in found.pages <==> IsPage(site, tree, f)
  {
    found := Walk(site, tree, [], Found(map[], []));
    VisitFindsThePublished(site, AllFiles(tree, []));
    forall f
      ensures f in found.pages <==> IsPage(site, tree, f)
    {
      PublishedIff(site, tree, f);
    }
  }

  /** A page of the site, said of the tree and the components of the path alone. */
  ghost predicate IsPage(site: Site, tree: Tree, f: Path) {
    && InTree(tree, f) && f != [] && site.isPage(f[|f| - 1])
    && (forall i | 0 <= i < |f| :: !LeftOut(f[i]))
    && (forall pattern | Excludes(site.excludes, pattern) :: !Under(site.fits, f, pattern))
    && (site.read(f).Page? || site.read(f).MalformedFrontMatter?)
  }

  lemma PublishedIff(site: Site, tree: Tree, f: Path)
    ensures IsPage(site, tree, f) <==> f in AllFiles(tree, []) && f != [] && Published(site, f)
  {
    AllFilesIff(tree, [], f);
    assert [] + f == f;
    ExcludedIff(site.fits, f, site.excludes);
  }

  /** So no page has a component that fits an exclude of one component, at any depth. */
  lemma NoPageFitsAnExclude(site: Site, tree: Tree, f: Path, pattern: Pattern, i: nat)
    requires IsPage(site, tree, f) && pattern in site.excludes && |pattern| == 1 && i < |f|
    ensures !site.fits(f[i], pattern[0])
  {
    assert Excludes(site.excludes, pattern);
    assert !Under(site.fits, f, pattern);
  }
}
