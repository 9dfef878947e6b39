/** The screenshot gate: one pass over the manifest's images builds the table of approved digests, one
    pass over the pages books what they show, and the error list decides. SHA-256, the text scan of a
    page and the exclusion of a path are given. */
module ScreenshotGate {
  import opened Collections
  import opened Png

  // ----- The manifest and the disk -----

  datatype Entry = Entry(file: string, sha256: string, width: nat, height: nat, source: string)

  /** `images` holds the files of the asset directory by name, `hash` is SHA-256 in hexadecimal. */
  datatype Assets = Assets(
    images: map<string, seq<byte>>, excluded: string -> bool, hash: seq<byte> -> string, template: bool)

  datatype Problem =
    | NoPages | BadCount | NoTemplate | DuplicateNames
    | UnsafeName(file: string) | MissingFile(file: string) | ExcludedFile(file: string) | ChangedHash(file: string)
    | DuplicateImage(file: string) | BadDimensions(file: string) | NeedlessMetadata(file: string)
    | TruncatedChunk(file: string) | IncompletePng(file: string) | UnknownProvenance(file: string)
    | IndentedInclude(page: string) | MalformedInclude(page: string) | Unmanifested(page: string, file: string)
    | Uncaptioned(page: string, file: string) | UnreadableAlias(page: string)
    | MalformedFrontMatter(page: string) | UncoveredPage(page: string) | UnusedFile(file: string) | ExtraFile(file: string)

  const PROVENANCE := "synthetic-local-capture"
  const SIGNATURE: seq<byte> := [0x89, 0x50, 0x4E, 0x47, 0x0D, 0x0A, 0x1A, 0x0A]
  const HEADER_START: seq<byte> := [0, 0, 0, 0x0D, 0x49, 0x48, 0x44, 0x52]

  predicate SafeName(file: string) {
    file != "" && file != "." && file != ".." && '/' !in file && '\\' !in file
  }

  predicate HasHeader(image: seq<byte>, width: nat, height: nat) {
    && |image| >= 33 && image[..8] == SIGNATURE && image[8..16] == HEADER_START
    && Number(image[16..20]) == width && Number(image[20..24]) == height
  }

  /** The file is read and hashed. */
  predicate Hashed(a: Assets, file: string) {
    SafeName(file) && file in a.images
  }

  function Digest(a: Assets, file: string): string
    requires Hashed(a, file)
  {
    a.hash(a.images[file])
  }

  /** Nothing is wrong with the file itself, duplicates aside. */
  predicate Flawless(a: Assets, e: Entry)
    requires Hashed(a, e.file)
  {
    && !a.excluded(e.file) && Digest(a, e.file) == e.sha256 && HasHeader(a.images[e.file], e.width, e.height)
    && WalkFrom(a.images[e.file], 8) == Report(true, 0, false)
    && e.source == PROVENANCE
  }

  type Manifest = map<string, Entry>

  ghost predicate Keyed(m: Manifest) {
    forall f <- m :: m[f].file == f
  }

  /** No other hashed file among `files` has the digest of `f`. */
  ghost predicate Alone(a: Assets, files: seq<string>, f: string)
    requires Hashed(a, f)
  {
    forall g <- files | g != f && Hashed(a, g) :: Digest(a, g) != Digest(a, f)
  }

  ghost predicate Deserves(a: Assets, m: Manifest, files: seq<string>, f: string) {
    f in files && f in m && m[f].file == f && Hashed(a, f) && Flawless(a, m[f]) && Alone(a, files, f)
  }

  /** The table holds digest `d` for file `f` exactly when `f` has no flaw of its own and no other hashed
      file of the manifest has digest `d`. */
  ghost predicate Approves(a: Assets, m: Manifest, files: seq<string>, approved: map<string, string>) {
    && (forall f <- files | Deserves(a, m, files, f) :: Digest(a, f) in approved && approved[Digest(a, f)] == f)
    && (forall d <- approved :: Deserves(a, m, files, approved[d]) && Digest(a, approved[d]) == d)
  }

  /** Every file is there, flawless and the only one of its digest. */
  ghost predicate AllFine(a: Assets, m: Manifest, files: seq<string>) {
    forall f <- files :: Deserves(a, m, files, f)
  }

  ghost predicate DigestsOf(a: Assets, files: seq<string>, hashes: set<string>) {
    forall d :: d in hashes <==> exists f :: f in files && Hashed(a, f) && Digest(a, f) == d
  }

  /** The checks on one image; the list is empty exactly when they all pass. */
  method InspectImage(a: Assets, e: Entry, duplicate: bool) returns (problems: seq<Problem>)
    requires Hashed(a, e.file)
    ensures problems == [] <==> Flawless(a, e) && !duplicate
  {
    problems := [];
    var f, image := e.file, a.images[e.file];
    if a.excluded(f) { problems := problems + [ExcludedFile(f)]; }
    if a.hash(image) != e.sha256 { problems := problems + [ChangedHash(f)]; }
    if duplicate { problems := problems + [DuplicateImage(f)]; }
    if !HasHeader(image, e.width, e.height) { problems := problems + [BadDimensions(f)]; }
    var report := WalkChunks(image);
    if report.metadata > 0 { problems := problems + seq(report.metadata, _ => NeedlessMetadata(f)); }
    if report.truncated { problems := problems + [TruncatedChunk(f)]; }
    if !report.ended { problems := problems + [IncompletePng(f)]; }
    if e.source != PROVENANCE { problems := problems + [UnknownProvenance(f)]; }
  }

  lemma NewFile(a: Assets, m: Manifest, files: seq<string>, f: string, hashes: set<string>, approved: map<string, string>)
    requires f !in files && f in m && m[f].file == f
    requires DigestsOf(a, files, hashes) && Approves(a, m, files, approved)
    ensures !Hashed(a, f) ==> DigestsOf(a, files + [f], hashes) && Approves(a, m, files + [f], approved)
    ensures !Hashed(a, f) ==> !AllFine(a, m, files + [f])
  {
    var all := files + [f];
    assert forall g :: g in all <==> g in files || g == f;
    if !Hashed(a, f) {
      forall g <- files
        ensures Deserves(a, m, all, g) <==> Deserves(a, m, files, g)
      {
      }
      assert f in all && !Deserves(a, m, all, f);
    }
  }

  lemma AloneAmongMore(a: Assets, files: seq<string>, f: string, g: string)
    requires Hashed(a, f) && Hashed(a, g) && f != g
    ensures Alone(a, files + [f], g) <==> Alone(a, files, g) && Digest(a, g) != Digest(a, f)
  {
    assert forall x :: x in files + [f] <==> x in files || x == f;
  }

  /** A repeated digest takes the table's entry for it away. */
  lemma RepeatedDigest(a: Assets, m: Manifest, files: seq<string>, f: string, hashes: set<string>, approved: map<string, string>)
    requires f !in files && Hashed(a, f) && Digest(a, f) in hashes
    requires DigestsOf(a, files, hashes) && Approves(a, m, files, approved)
    ensures Approves(a, m, files + [f], approved - {Digest(a, f)}) && !AllFine(a, m, files + [f])
  {
    var all, d := files + [f], Digest(a, f);
    assert forall g :: g in all <==> g in files || g == f;
    forall g <- files
      ensures Deserves(a, m, all, g) <==> Deserves(a, m, files, g) && Digest(a, g) != d
    {
      if Hashed(a, g) {
        AloneAmongMore(a, files, f, g);
      }
    }
    var g :| g in files && Hashed(a, g) && Digest(a, g) == d;
    assert g in all && g != f && !Alone(a, all, f);
    assert f in all && !Deserves(a, m, all, f);
  }

  /** A new digest enters the table exactly when its file has no flaw. */
  lemma FreshDigest(a: Assets, m: Manifest, files: seq<string>, f: string, hashes: set<string>, approved: map<string, string>)
    requires f !in files && f in m && m[f].file == f && Hashed(a, f) && Digest(a, f) !in hashes
    requires DigestsOf(a, files, hashes) && Approves(a, m, files, approved)
    ensures !Flawless(a, m[f]) ==> Approves(a, m, files + [f], approved) && !AllFine(a, m, files + [f])
    ensures Flawless(a, m[f]) ==>
              && Approves(a, m, files + [f], approved[Digest(a, f) := f])
              && (AllFine(a, m, files + [f]) <==> AllFine(a, m, files))
  {
    var all, d := files + [f], Digest(a, f);
    assert forall g :: g in all <==> g in files || g == f;
    forall g <- files
      ensures Hashed(a, g) ==> Digest(a, g) != d
      ensures Deserves(a, m, all, g) <==> Deserves(a, m, files, g)
    {
    }
    assert Alone(a, all, f);
    assert f in all && (Deserves(a, m, all, f) <==> Flawless(a, m[f]));
  }

  lemma DigestsGrow(a: Assets, files: seq<string>, f: string, hashes: set<string>)
    requires Hashed(a, f) && DigestsOf(a, files, hashes)
    ensures DigestsOf(a, files + [f], hashes + {Digest(a, f)})
  {
    assert forall g :: g in files + [f] <==> g in files || g == f;
  }

  predicate NoRepeats(files: seq<string>) {
    forall i, j | 0 <= i < j < |files| :: files[i] != files[j]
  }

  predicate Covers(m: Manifest, files: seq<string>) {
    forall i | 0 <= i < |files| :: files[i] in m && m[files[i]].file == files[i]
  }

  /** The one pass over the manifest. */
  method ApproveImages(a: Assets, m: Manifest, files: seq<string>)
    returns (problems: seq<Problem>, hashes: set<string>, approved: map<string, string>)
    requires NoRepeats(files) && Covers(m, files)
    ensures problems == [] <==> AllFine(a, m, files)
    ensures DigestsOf(a, files, hashes)
    ensures Approves(a, m, files, approved)
  {
    problems, hashes, approved := [], {}, map[];
    for i := 0 to |files|
      invariant problems == [] <==> AllFine(a, m, files[..i])
      invariant DigestsOf(a, files[..i], hashes)
      invariant Approves(a, m, files[..i], approved)
    {
      var f := files[i];
      assert files[..i + 1] == files[..i] + [f] && f !in files[..i];
      NewFile(a, m, files[..i], f, hashes, approved);
      if !SafeName(f) {
        problems := problems + [UnsafeName(f)];
        continue;
      }
      if f !in a.images {
        problems := problems + [MissingFile(f)];
        continue;
      }
      DigestsGrow(a, files[..i], f, hashes);
      if Digest(a, f) in hashes {
        RepeatedDigest(a, m, files[..i], f, hashes, approved);
      } else {
        FreshDigest(a, m, files[..i], f, hashes, approved);
      }
      var digest := a.hash(a.images[f]);
      var duplicate := digest in hashes;
      if duplicate {
        approved := approved - {digest};
      }
      hashes := hashes + {digest};
      var own := InspectImage(a, m[f], duplicate);
      problems := problems + own;
      if own == [] {
        approved := approved[digest := f];
      }
    }
    assert files[..|files|] == files;
  }

  /** The order of the manifest plays no part in what is approved. */
  lemma OrderDoesNotMatter(a: Assets, m: Manifest, files: seq<string>, other: seq<string>,
                           approved: map<string, string>, approved': map<string, string>)
    requires forall f :: f in files <==> f in other
    requires Approves(a, m, files, approved) && Approves(a, m, other, approved')
    ensures approved == approved'
  {
    assert forall f :: Deserves(a, m, files, f) <==> Deserves(a, m, other, f);
    assert forall d <- approved :: approved[d] in files && approved[d] in other;
    assert forall d <- approved' :: approved'[d] in files && approved'[d] in other;
  }

  // ----- The pages -----

  /** One include of a page: its place, whether its arguments parse, the file and the caption it names. */
  datatype Include = Include(atColumnOne: bool, parses: bool, file: string, captioned: bool)

  /** One body image: no legacy screenshot, unreadable, or one whose bytes have this digest. */
  datatype Alias = Ignored | Unreadable | Bytes(digest: string)

  datatype Page = Page(name: string, includes: seq<Include>, stray: bool, aliases: seq<Alias>)

  /** The include places an approved image with title and caption. */
  predicate Places(a: Assets, approved: map<string, string>, inc: Include) {
    inc.atColumnOne && inc.parses && inc.captioned && a.template && inc.file in approved.Values
  }

  predicate Recognised(approved: map<string, string>, alias: Alias) {
    alias.Bytes? && alias.digest in approved
  }

  /** The page shows `file`, by an include or by a body image with its bytes. */
  ghost predicate Shows(a: Assets, approved: map<string, string>, page: Page, file: string) {
    || (exists inc <- page.includes :: Places(a, approved, inc) && inc.file == file)
    || (exists alias <- page.aliases :: Recognised(approved, alias) && approved[alias.digest] == file)
  }

  predicate WellFormed(files: set<string>, inc: Include) {
    inc.atColumnOne && inc.parses && inc.file in files && inc.captioned
  }

  predicate WellWritten(files: set<string>, page: Page) {
    && (forall i | 0 <= i < |page.includes| :: WellFormed(files, page.includes[i]))
    && !page.stray
    && (forall i | 0 <= i < |page.aliases| :: !page.aliases[i].Unreadable?)
  }

  method CheckIncludes(a: Assets, files: set<string>, approved: map<string, string>, page: Page)
    returns (problems: seq<Problem>, shown: seq<string>)
    ensures problems == [] <==> forall i | 0 <= i < |page.includes| :: WellFormed(files, page.includes[i])
    ensures forall f :: f in shown <==> exists inc <- page.includes :: Places(a, approved, inc) && inc.file == f
  {
    problems, shown := [], [];
    var valid := approved.Values;
    for i := 0 to |page.includes|
      invariant problems == [] <==> forall j | 0 <= j < i :: WellFormed(files, page.includes[j])
      invariant forall f :: f in shown <==> exists inc <- page.includes[..i] :: Places(a, approved, inc) && inc.file == f
    {
      var inc := page.includes[i];
      assert page.includes[..i + 1] == page.includes[..i] + [inc];
      assert forall x :: x in page.includes[..i + 1] <==> x in page.includes[..i] || x == inc;
      if !inc.atColumnOne {
        problems := problems + [IndentedInclude(page.name)];
        continue;
      }
      if !inc.parses {
        problems := problems + [MalformedInclude(page.name)];
        continue;
      }
      if inc.file !in files {
        problems := problems + [Unmanifested(page.name, inc.file)];
      }
      if !inc.captioned {
        problems := problems + [Uncaptioned(page.name, inc.file)];
      }
      if inc.file in valid && inc.captioned && a.template {
        shown := shown + [inc.file];
      }
    }
    assert page.includes[..|page.includes|] == page.includes;
  }

  method CheckAliases(approved: map<string, string>, page: Page) returns (problems: seq<Problem>, shown: seq<string>)
    ensures problems == [] <==> forall i | 0 <= i < |page.aliases| :: !page.aliases[i].Unreadable?
    ensures forall f :: f in shown <==>
              exists alias <- page.aliases :: Recognised(approved, alias) && approved[alias.digest] == f
  {
    problems, shown := [], [];
    for i := 0 to |page.aliases|
      invariant problems == [] <==> forall j | 0 <= j < i :: !page.aliases[j].Unreadable?
      invariant forall f :: f in shown <==>
                  exists alias <- page.aliases[..i] :: Recognised(approved, alias) && approved[alias.digest] == f
    {
      var alias := page.aliases[i];
      assert page.aliases[..i + 1] == page.aliases[..i] + [alias];
      assert forall x :: x in page.aliases[..i + 1] <==> x in page.aliases[..i] || x == alias;
      match alias
      case Ignored =>
      case Unreadable => problems := problems + [UnreadableAlias(page.name)];
      case Bytes(digest) =>
        if digest in approved {
          shown := shown + [approved[digest]];
        }
    }
    assert page.aliases[..|page.aliases|] == page.aliases;
  }

  /** Books what one page shows. */
  method CheckPage(a: Assets, files: set<string>, approved: map<string, string>, page: Page)
    returns (problems: seq<Problem>, shown: seq<string>)
    ensures problems == [] <==> WellWritten(files, page)
    ensures forall f :: f in shown <==> Shows(a, approved, page, f)
  {
    var first, byInclude := CheckIncludes(a, files, approved, page);
    var last, byAlias := CheckAliases(approved, page);
    problems := first + (if page.stray then [MalformedInclude(page.name)] else []) + last;
    shown := byInclude + byAlias;
    assert forall f :: f in shown <==> f in byInclude || f in byAlias;
  }

  ghost predicate Covered(a: Assets, approved: map<string, string>, page: Page) {
    exists f :: Shows(a, approved, page, f)
  }

  ghost predicate Used(a: Assets, approved: map<string, string>, pages: seq<Page>, file: string) {
    exists page <- pages :: Shows(a, approved, page, file)
  }

  /** What the loop over the pages has found out about the first of them. */
  ghost predicate Booked(a: Assets, files: set<string>, approved: map<string, string>, pages: seq<Page>,
                         problems: seq<Problem>, uses: map<string, seq<string>>, covered: set<Page>)
  {
    && (problems == [] <==> forall page <- pages :: WellWritten(files, page))
    && (forall f :: f in uses <==> Used(a, approved, pages, f))
    && (forall page :: page in covered <==> page in pages && Covered(a, approved, page))
  }

  lemma OneMorePage(a: Assets, approved: map<string, string>, pages: seq<Page>, page: Page)
    ensures forall x :: x in pages + [page] <==> x in pages || x == page
    ensures forall f :: Used(a, approved, pages + [page], f) <==> Used(a, approved, pages, f) || Shows(a, approved, page, f)
  {
    var all := pages + [page];
    forall x
      ensures x in all <==> x in pages || x == page
    {
    }
    forall f
      ensures Used(a, approved, all, f) <==> Used(a, approved, pages, f) || Shows(a, approved, page, f)
    {
      if Shows(a, approved, page, f) {
        assert page in all;
      }
    }
  }

  lemma BookPage(a: Assets, files: set<string>, approved: map<string, string>, pages: seq<Page>, page: Page,
                 problems: seq<Problem>, uses: map<string, seq<string>>, covered: set<Page>,
                 more: seq<Problem>, shown: seq<string>)
    requires Booked(a, files, approved, pages, problems, uses, covered)
    requires more == [] <==> WellWritten(files, page)
    requires forall f :: f in shown <==> Shows(a, approved, page, f)
    ensures Booked(a, files, approved, pages + [page], problems + more, Book(uses, shown, page.name),
                   if shown != [] then covered + {page} else covered)
  {
    OneMorePage(a, approved, pages, page);
    ShownIsCovered(a, approved, page, shown);
  }

  lemma ShownIsCovered(a: Assets, approved: map<string, string>, page: Page, shown: seq<string>)
    requires forall f :: f in shown <==> Shows(a, approved, page, f)
    ensures shown != [] <==> Covered(a, approved, page)
  {
    if shown != [] {
      assert shown[0] in shown;
    }
  }

  method CheckPages(a: Assets, files: set<string>, approved: map<string, string>, pages: seq<Page>)
    returns (problems: seq<Problem>, uses: map<string, seq<string>>, covered: set<Page>)
    ensures Booked(a, files, approved, pages, problems, uses, covered)
  {
    problems, uses, covered := [], map[], {};
    for i := 0 to |pages|
      invariant Booked(a, files, approved, pages[..i], problems, uses, covered)
    {
      var page := pages[i];
      assert pages[..i + 1] == pages[..i] + [page];
      var more, shown := CheckPage(a, files, approved, page);
      BookPage(a, files, approved, pages[..i], page, problems, uses, covered, more, shown);
      problems := problems + more;
      uses := Book(uses, shown, page.name);
      if shown != [] {
        covered := covered + {page};
      }
    }
    assert pages[..|pages|] == pages;
  }

  /** One placement per shown file: `uses.setdefault(file, []).append(name)`. */
  function Book(uses: map<string, seq<string>>, shown: seq<string>, name: string): (r: map<string, seq<string>>)
    ensures forall f :: f in r <==> f in uses || f in shown
    decreases |shown|
  {
    if shown == [] then uses else
    var f := shown[0];
    Book(uses[f := (if f in uses then uses[f] else []) + [name]], shown[1..], name)
  }

  // ----- The verdict -----

  /** The manifest as read, the PNG files lying in the directory, the pages, and the names of those whose
      front matter is malformed. */
  datatype Input = Input(count: int, entries: seq<Entry>, pngs: seq<string>, pages: seq<Page>, malformed: seq<string>)

  /** `{entry["file"]: entry for entry in entries}`: the last entry of a name counts. */
  function ByName(entries: seq<Entry>): (m: Manifest)
    ensures forall f :: f in m <==> exists i :: 0 <= i < |entries| && entries[i].file == f
    ensures Keyed(m)
  {
    if entries == [] then map[] else
    var n := |entries| - 1;
    ByName(entries[..n])[entries[n].file := entries[n]]
  }

  predicate DistinctFiles(entries: seq<Entry>) {
    forall i, j | 0 <= i < j < |entries| :: entries[i].file != entries[j].file
  }

  /** The names of the manifest in the order of their first entries. */
  function Names(entries: seq<Entry>): (names: seq<string>)
    ensures |names| <= |entries|
  {
    if entries == [] then [] else
    var n := |entries| - 1;
    var before := Names(entries[..n]);
    if entries[n].file in before then before else before + [entries[n].file]
  }

  lemma {:induction false} NamesAreTheKeys(entries: seq<Entry>)
    ensures var names := Names(entries);
            && (forall f :: f in names <==> f in ByName(entries))
            && NoRepeats(names) && Covers(ByName(entries), names)
  {
    if entries != [] {
      var n := |entries| - 1;
      var before := Names(entries[..n]);
      NamesAreTheKeys(entries[..n]);
      assert forall i | 0 <= i < |before| :: before[i] in before;
      assert forall f :: f in before + [entries[n].file] <==> f in before || f == entries[n].file;
    }
  }

  /** No name is lost exactly when no file is listed twice. */
  lemma {:induction false} NamesCount(entries: seq<Entry>)
    ensures |Names(entries)| == |entries| <==> DistinctFiles(entries)
  {
    if entries != [] {
      var n := |entries| - 1;
      NamesCount(entries[..n]);
      NamesAreTheKeys(entries[..n]);
      DistinctOneMore(entries);
    }
  }

  lemma DistinctOneMore(entries: seq<Entry>)
    requires entries != []
    ensures var n := |entries| - 1;
            DistinctFiles(entries) <==> DistinctFiles(entries[..n]) && entries[n].file !in ByName(entries[..n])
  {
    var n := |entries| - 1;
    var before := entries[..n];
    assert forall i | 0 <= i < n :: before[i] == entries[i];
    if entries[n].file in ByName(before) {
      var i :| 0 <= i < n && before[i].file == entries[n].file;
      assert entries[i].file == entries[n].file;
    }
  }

  /** What the gate stands for. */
  ghost predicate Publishable(a: Assets, input: Input) {
    && input.pages != [] && input.malformed == []
    && ManifestInOrder(a, input.count, input.entries, input.pngs)
    && PagesInOrder(a, ByName(input.entries).Keys, Names(input.entries), input.pages)
  }

  /** The manifest lists each file once and is complete; every file of it is a valid image that no other
      repeats. */
  ghost predicate ManifestInOrder(a: Assets, count: int, entries: seq<Entry>, pngs: seq<string>) {
    && count == |entries| && |entries| >= 100 && a.template && DistinctFiles(entries)
    && AllFine(a, ByName(entries), Names(entries))
    && forall i | 0 <= i < |pngs| :: pngs[i] in ByName(entries)
  }

  /** Every page is well written and shows one of the files, and every one of them is shown. */
  ghost predicate PagesInOrder(a: Assets, names: set<string>, files: seq<string>, pages: seq<Page>) {
    && (forall page <- pages :: GoodPage(a, names, files, page))
    && (forall f <- files :: ShownAmong(a, pages, f))
  }

  ghost predicate ShownAmong(a: Assets, pages: seq<Page>, f: string) {
    exists page <- pages :: ShowsImage(a, page, f)
  }

  ghost predicate GoodPage(a: Assets, names: set<string>, files: seq<string>, page: Page) {
    WellWritten(names, page) && exists f <- files :: ShowsImage(a, page, f)
  }

  /** The page shows the bytes of this file, without reference to any table. */
  ghost predicate ShowsImage(a: Assets, page: Page, f: string) {
    Hashed(a, f) &&
    (|| (exists inc <- page.includes :: inc.atColumnOne && inc.parses && inc.captioned && inc.file == f)
     || (exists alias <- page.aliases :: alias.Bytes? && alias.digest == Digest(a, f)))
  }

  lemma FineFilesAreShown(a: Assets, m: Manifest, files: seq<string>, approved: map<string, string>, page: Page, f: string)
    requires Approves(a, m, files, approved) && AllFine(a, m, files) && a.template
    ensures Shows(a, approved, page, f) <==> f in files && ShowsImage(a, page, f)
  {
    if f in files {
      assert Deserves(a, m, files, f);
      assert Digest(a, f) in approved && approved[Digest(a, f)] == f;
      assert f in approved.Values;
    }
    if Shows(a, approved, page, f) {
      assert f in approved.Values;
      var d :| d in approved && approved[d] == f;
      assert Deserves(a, m, files, approved[d]);
    }
    if f in files && ShowsImage(a, page, f) {
      if inc :| inc in page.includes && inc.atColumnOne && inc.parses && inc.captioned && inc.file == f {
        assert Places(a, approved, inc);
      } else {
        var alias :| alias in page.aliases && alias.Bytes? && alias.digest == Digest(a, f);
        assert Recognised(approved, alias);
      }
    }
  }

  /** The checks that need no image and no page text. */
  method CheckBasics(a: Assets, input: Input) returns (problems: seq<Problem>)
    ensures problems == [] <==>
            && input.pages != [] && input.count == |input.entries| && |input.entries| >= 100 && a.template
            && DistinctFiles(input.entries) && input.malformed == []
  {
    problems := seq(|input.malformed|, i requires 0 <= i < |input.malformed| => MalformedFrontMatter(input.malformed[i]));
    if input.pages == [] { problems := problems + [NoPages]; }
    if input.count != |input.entries| || |input.entries| < 100 { problems := problems + [BadCount]; }
    if !a.template { problems := problems + [NoTemplate]; }
    NamesCount(input.entries);
    if |Names(input.entries)| != |input.entries| { problems := problems + [DuplicateNames]; }
  }

  lemma CoverageIsOfFineFiles(a: Assets, m: Manifest, files: seq<string>, approved: map<string, string>, pages: seq<Page>)
    requires Approves(a, m, files, approved) && AllFine(a, m, files) && a.template
    ensures CoverageAgrees(a, m.Keys, files, approved, pages)
  {
    forall page, f
      ensures Shows(a, approved, page, f) <==> f in files && ShowsImage(a, page, f)
    {
      FineFilesAreShown(a, m, files, approved, page, f);
    }
  }

  /** Being shown by way of the table is being shown. */
  ghost predicate CoverageAgrees(a: Assets, names: set<string>, files: seq<string>, approved: map<string, string>, pages: seq<Page>) {
    && (forall page <- pages :: GoodPage(a, names, files, page) <==> WellWritten(names, page) && Covered(a, approved, page))
    && (forall f <- files :: Used(a, approved, pages, f) <==> ShownAmong(a, pages, f))
  }

  /** Once all files are fine, the bookkeeping of the pages says whether they are in order. */
  lemma PagesInOrderIff(a: Assets, names: set<string>, files: seq<string>, approved: map<string, string>, pages: seq<Page>,
                        slips: seq<Problem>, uses: map<string, seq<string>>, covered: set<Page>)
    requires CoverageAgrees(a, names, files, approved, pages)
    requires Booked(a, names, approved, pages, slips, uses, covered)
    ensures PagesInOrder(a, names, files, pages) <==>
            slips == [] && (forall page <- pages :: page in covered) && (forall f <- files :: f in uses)
  {
  }

  /** The whole gate: its error list is empty exactly when the site is publishable. */
  method Validate(a: Assets, input: Input) returns (problems: seq<Problem>)
    ensures problems == [] <==> Publishable(a, input)
  {
    var basics := CheckBasics(a, input);
    var m, files := ByName(input.entries), Names(input.entries);
    NamesAreTheKeys(input.entries);
    var faults, hashes, approved := ApproveImages(a, m, files);
    var rest := CheckSite(a, m, files, approved, input);
    problems := basics + faults + rest;
  }

  /** What remains once the images have been judged. */
  method CheckSite(a: Assets, m: Manifest, files: seq<string>, approved: map<string, string>, input: Input)
    returns (problems: seq<Problem>)
    requires Approves(a, m, files, approved)
    ensures AllFine(a, m, files) && a.template ==>
              (problems == [] <==> PagesInOrder(a, m.Keys, files, input.pages) && forall i | 0 <= i < |input.pngs| :: input.pngs[i] in m)
  {
    var slips, uses, covered := CheckPages(a, m.Keys, approved, input.pages);
    var uncovered := UncoveredPages(input.pages, covered);
    var unused := UnusedFiles(files, uses);
    var extras := ExtraFiles(input.pngs, m);
    problems := slips + uncovered + unused + extras;
    if AllFine(a, m, files) && a.template {
      CoverageIsOfFineFiles(a, m, files, approved, input.pages);
      PagesInOrderIff(a, m.Keys, files, approved, input.pages, slips, uses, covered);
    }
  }

  method UncoveredPages(pages: seq<Page>, covered: set<Page>) returns (problems: seq<Problem>)
    ensures problems == [] <==> forall page <- pages :: page in covered
  {
    problems := [];
    for i := 0 to |pages|
      invariant problems == [] <==> forall j | 0 <= j < i :: pages[j] in covered
    {
      if pages[i] !in covered { problems := problems + [UncoveredPage(pages[i].name)]; }
    }
  }

  method UnusedFiles(files: seq<string>, uses: map<string, seq<string>>) returns (problems: seq<Problem>)
    ensures problems == [] <==> forall f <- files :: f in uses
  {
    problems := [];
    for i := 0 to |files|
      invariant problems == [] <==> forall j | 0 <= j < i :: files[j] in uses
    {
      if files[i] !in uses { problems := problems + [UnusedFile(files[i])]; }
    }
  }

  method ExtraFiles(pngs: seq<string>, m: Manifest) returns (problems: seq<Problem>)
    ensures problems == [] <==> forall i | 0 <= i < |pngs| :: pngs[i] in m
  {
    problems := [];
    for i := 0 to |pngs|
      invariant problems == [] <==> forall j | 0 <= j < i :: pngs[j] in m
    {
      if pngs[i] !in m { problems := problems + [ExtraFile(pngs[i])]; }
    }
  }
}
