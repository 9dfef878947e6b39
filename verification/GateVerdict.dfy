/** What the gate stands for, said of the manifest, the bytes and the pages alone: how a PNG is spelled, and
    what each entry and each page must be. */
module GateVerdict {
  import opened Collections
  import opened Png
  import opened ScreenshotGate
  import opened DocsGate

  // ----- The spelling of a PNG -----

  /** The letters of a type or a signature as bytes. */
  function Bytes(s: string): (b: seq<byte>)
    requires forall i | 0 <= i < |s| :: s[i] < '\U{0100}'
    ensures |b| == |s| && forall i | 0 <= i < |s| :: b[i] as int == s[i] as int
  {
    seq(|s|, i requires 0 <= i < |s| => s[i] as byte)
  }

  /** Chunk types are spelled as the standard spells them. */
  lemma TypesAreSpelled()
    ensures IEND == Bytes("IEND")
    ensures forall kind :: IsMetadata(kind) <==> kind in {Bytes("tEXt"), Bytes("iTXt"), Bytes("zTXt"), Bytes("eXIf")}
  {
    assert TEXT_E == Bytes("tEXt") && TEXT_I == Bytes("iTXt") && TEXT_Z == Bytes("zTXt") && EXIF == Bytes("eXIf");
  }

  /** Numbers are written with the most significant byte first. */
  lemma NumberIs(b: seq<byte>)
    requires |b| == 4
    ensures Number(b) == 16_777_216 * b[0] as int + 65_536 * b[1] as int + 256 * b[2] as int + b[3] as int
  {
  }

  /** A chunk is its length, its type, its data and its CRC, in this order. */
  lemma SerialisedIs(c: Chunk)
    requires c.Valid()
    ensures var b := Serialise(c);
            && Number(b[..4]) == |c.data| && b[4..8] == c.kind && b[8..8 + |c.data|] == c.data && b[8 + |c.data|..] == c.crc
  {
    NumberOfDigits(|c.data|);
    assert Serialise(c)[..4] == Digits(|c.data|);
  }

  // ----- The verdict -----

  /** The file starts as a PNG of this size does: signature, length and type of the header, width, height. */
  ghost predicate StartsAsPng(image: seq<byte>, width: nat, height: nat) {
    && |image| >= 33
    && image[..8] == [0x89] + Bytes("PNG\r\n") + [0x1A] + Bytes("\n")
    && image[8..12] == [0, 0, 0, 13] && image[12..16] == Bytes("IHDR")
    && BigEndian(image[16..20], width) && BigEndian(image[20..24], height)
  }

  predicate BigEndian(b: seq<byte>, n: nat)
    requires |b| == 4
  {
    n == 16_777_216 * b[0] as int + 65_536 * b[1] as int + 256 * b[2] as int + b[3] as int
  }

  lemma HeaderIff(image: seq<byte>, width: nat, height: nat)
    ensures HasHeader(image, width, height) <==> StartsAsPng(image, width, height)
  {
    assert SIGNATURE == [0x89] + Bytes("PNG\r\n") + [0x1A] + Bytes("\n");
    if |image| >= 33 {
      NumberIs(image[16..20]);
      NumberIs(image[20..24]);
      assert image[8..16] == image[8..12] + image[12..16];
      assert HEADER_START[..4] == [0, 0, 0, 13] && HEADER_START[4..] == Bytes("IHDR");
      assert image[8..16] == HEADER_START <==> image[8..12] == HEADER_START[..4] && image[12..16] == HEADER_START[4..] by {
        assert image[8..12] == image[8..16][..4] && image[12..16] == image[8..16][4..];
        assert HEADER_START == HEADER_START[..4] + HEADER_START[4..];
      }
    }
  }

  /** After the signature come whole chunks, the first IEND of which is empty and last; none is metadata. */
  ghost predicate PlainChunks(image: seq<byte>) {
    exists chunks :: Complete(chunks) && AfterSignature(image) == SerialiseAll(chunks) && !AnyMetadata(chunks)
  }

  lemma PlainChunksIff(image: seq<byte>)
    ensures WalkFrom(image, 8) == Report(true, 0, false) <==> PlainChunks(image)
  {
    if WalkFrom(image, 8).ended {
      var chunks := AcceptedIsComplete(image, 8);
      CompleteIsAccepted(image, 8, chunks);
      assert AfterSignature(image) == SerialiseAll(chunks);
    }
    forall chunks | Complete(chunks) && AfterSignature(image) == SerialiseAll(chunks)
      ensures WalkFrom(image, 8).ended && !WalkFrom(image, 8).truncated
      ensures WalkFrom(image, 8).metadata > 0 <==> AnyMetadata(chunks)
    {
      assert |SerialiseAll(chunks)| >= 12;
      CompleteIsAccepted(image, 8, chunks);
    }
  }

  /** A name that stays inside its directory. */
  predicate PlainName(file: string) {
    file !in {"", ".", ".."} && forall i | 0 <= i < |file| :: file[i] != '/' && file[i] != '\\'
  }

  predicate OnDisk(a: Assets, file: string) {
    PlainName(file) && file in a.images
  }

  /** The manifest tells the truth about one file. */
  ghost predicate Truthful(a: Assets, e: Entry) {
    && OnDisk(a, e.file) && !a.excluded(e.file) && a.hash(a.images[e.file]) == e.sha256
    && StartsAsPng(a.images[e.file], e.width, e.height) && PlainChunks(a.images[e.file])
    && e.source == "synthetic-local-capture"
  }

  lemma TruthfulIff(a: Assets, e: Entry)
    ensures Truthful(a, e) <==> Hashed(a, e.file) && Flawless(a, e)
  {
    assert OnDisk(a, e.file) <==> Hashed(a, e.file);
    if Hashed(a, e.file) {
      HeaderIff(a.images[e.file], e.width, e.height);
      PlainChunksIff(a.images[e.file]);
    }
  }

  /** The page shows the file: a proper include names it, or a body image has its bytes. */
  ghost predicate PageShows(a: Assets, page: Page, file: string) {
    OnDisk(a, file) &&
    (|| (exists k :: 0 <= k < |page.includes| && page.includes[k].file == file
                     && page.includes[k].atColumnOne && page.includes[k].parses && page.includes[k].captioned)
     || (exists k :: 0 <= k < |page.aliases| && page.aliases[k] == Alias.Bytes(a.hash(a.images[file]))))
  }

  lemma PageShowsIff(a: Assets, page: Page, file: string)
    ensures PageShows(a, page, file) <==> ShowsImage(a, page, file)
  {
    assert OnDisk(a, file) <==> Hashed(a, file);
    if Hashed(a, file) {
      if inc :| inc in page.includes && inc.atColumnOne && inc.parses && inc.captioned && inc.file == file {
        var k :| 0 <= k < |page.includes| && page.includes[k] == inc;
      }
      if alias :| alias in page.aliases && alias.Bytes? && alias.digest == Digest(a, file) {
        var k :| 0 <= k < |page.aliases| && page.aliases[k] == alias;
      }
    }
  }

  /** No two files have the same bytes, as far as their digests tell. */
  ghost predicate AllDiffer(a: Assets, es: seq<Entry>) {
    forall i, j | 0 <= i < j < |es| :: Differ(a, es[i], es[j])
  }

  ghost predicate AllTruthful(a: Assets, es: seq<Entry>) {
    forall i | 0 <= i < |es| :: Truthful(a, es[i])
  }

  ghost predicate AllPagesFit(a: Assets, es: seq<Entry>, pages: seq<Page>) {
    forall p | 0 <= p < |pages| :: PageFit(a, es, pages[p])
  }

  ghost predicate ShownOnSome(a: Assets, pages: seq<Page>, file: string) {
    exists p :: 0 <= p < |pages| && PageShows(a, pages[p], file)
  }

  ghost predicate AllShown(a: Assets, es: seq<Entry>, pages: seq<Page>) {
    forall i | 0 <= i < |es| :: ShownOnSome(a, pages, es[i].file)
  }

  predicate Listed(es: seq<Entry>, file: string) {
    exists i :: 0 <= i < |es| && es[i].file == file
  }

  /** Everything that the gate asks for, entry by entry and page by page. */
  ghost predicate Fit(a: Assets, input: Input) {
    var es, pages := input.entries, input.pages;
    && pages != [] && input.malformed == [] && ManifestFit(a, input.count, input.entries, input.pngs)
    && AllPagesFit(a, es, pages) && AllShown(a, es, pages)
  }

  ghost predicate ManifestFit(a: Assets, count: int, es: seq<Entry>, pngs: seq<string>) {
    && count == |es| && |es| >= 100 && a.template
    && (forall i, j | 0 <= i < j < |es| :: es[i].file != es[j].file)
    && AllTruthful(a, es) && AllDiffer(a, es)
    && (forall k | 0 <= k < |pngs| :: Listed(es, pngs[k]))
  }

  ghost predicate PageFit(a: Assets, es: seq<Entry>, page: Page) {
    && !page.stray && (forall k | 0 <= k < |page.aliases| :: !page.aliases[k].Unreadable?)
    && (forall k | 0 <= k < |page.includes| :: IncludeFit(es, page.includes[k]))
    && exists i :: 0 <= i < |es| && PageShows(a, page, es[i].file)
  }

  predicate IncludeFit(es: seq<Entry>, inc: Include) {
    inc.atColumnOne && inc.parses && inc.captioned && Listed(es, inc.file)
  }

  lemma {:induction false} DistinctEntries(entries: seq<Entry>, i: nat)
    requires DistinctFiles(entries) && i < |entries|
    ensures entries[i].file in ByName(entries) && ByName(entries)[entries[i].file] == entries[i]
  {
    var n := |entries| - 1;
    if i < n {
      DistinctEntries(entries[..n], i);
    }
  }

  lemma NamesOfEntries(entries: seq<Entry>)
    ensures forall f :: f in Names(entries) <==> Listed(entries, f)
    ensures forall f :: f in ByName(entries) <==> Listed(entries, f)
  {
    NamesAreTheKeys(entries);
  }

  /** The bytes of two entries that are on disk have different digests. */
  predicate Differ(a: Assets, e: Entry, e': Entry) {
    OnDisk(a, e.file) && OnDisk(a, e'.file) ==> a.hash(a.images[e.file]) != a.hash(a.images[e'.file])
  }

  /** What one entry must be for its file to deserve approval. */
  ghost predicate Unique(a: Assets, es: seq<Entry>, i: nat)
    requires i < |es|
  {
    Truthful(a, es[i]) && forall j | 0 <= j < |es| && j != i :: Differ(a, es[j], es[i])
  }

  lemma DifferIff(a: Assets, e: Entry, e': Entry)
    ensures Differ(a, e, e') <==> !(Hashed(a, e.file) && Hashed(a, e'.file) && Digest(a, e.file) == Digest(a, e'.file))
  {
    assert OnDisk(a, e.file) <==> Hashed(a, e.file);
    assert OnDisk(a, e'.file) <==> Hashed(a, e'.file);
  }

  lemma AloneIff(a: Assets, es: seq<Entry>, i: nat)
    requires DistinctFiles(es) && i < |es| && Hashed(a, es[i].file)
    ensures Alone(a, Names(es), es[i].file) <==> forall j | 0 <= j < |es| && j != i :: Differ(a, es[j], es[i])
  {
    NamesOfEntries(es);
    forall j | 0 <= j < |es| && j != i
      ensures es[j].file in Names(es) && es[j].file != es[i].file
      ensures Differ(a, es[j], es[i]) <==> !(Hashed(a, es[j].file) && Digest(a, es[j].file) == Digest(a, es[i].file))
    {
      assert Listed(es, es[j].file);
      DifferIff(a, es[j], es[i]);
    }
    if !Alone(a, Names(es), es[i].file) {
      var g :| g in Names(es) && g != es[i].file && Hashed(a, g) && Digest(a, g) == Digest(a, es[i].file);
      assert Listed(es, g);
      var j :| 0 <= j < |es| && es[j].file == g;
    }
  }

  lemma DeservesIff(a: Assets, es: seq<Entry>, i: nat)
    requires DistinctFiles(es) && i < |es|
    ensures Deserves(a, ByName(es), Names(es), es[i].file) <==> Unique(a, es, i)
  {
    NamesOfEntries(es);
    assert Listed(es, es[i].file);
    DistinctEntries(es, i);
    TruthfulIff(a, es[i]);
    if Hashed(a, es[i].file) {
      AloneIff(a, es, i);
    }
  }

  lemma AllFineIff(a: Assets, es: seq<Entry>)
    requires DistinctFiles(es)
    ensures AllFine(a, ByName(es), Names(es)) <==> AllTruthful(a, es) && AllDiffer(a, es)
  {
    AllFineIffUnique(a, es);
    UniqueIff(a, es);
  }

  lemma AllFineIffUnique(a: Assets, es: seq<Entry>)
    requires DistinctFiles(es)
    ensures AllFine(a, ByName(es), Names(es)) <==> forall i | 0 <= i < |es| :: Unique(a, es, i)
  {
    NamesOfEntries(es);
    if AllFine(a, ByName(es), Names(es)) {
      forall i | 0 <= i < |es|
        ensures Unique(a, es, i)
      {
        assert Listed(es, es[i].file);
        DeservesIff(a, es, i);
      }
    }
    if forall i | 0 <= i < |es| :: Unique(a, es, i) {
      forall f <- Names(es)
        ensures Deserves(a, ByName(es), Names(es), f)
      {
        assert Listed(es, f);
        var i :| 0 <= i < |es| && es[i].file == f;
        DeservesIff(a, es, i);
      }
    }
  }

  lemma UniqueIff(a: Assets, es: seq<Entry>)
    ensures (forall i | 0 <= i < |es| :: Unique(a, es, i)) <==> AllTruthful(a, es) && AllDiffer(a, es)
  {
    if forall i | 0 <= i < |es| :: Unique(a, es, i) {
      forall i, j | 0 <= i < j < |es|
        ensures Differ(a, es[i], es[j]) && Truthful(a, es[i])
      {
        assert Unique(a, es, i) && Unique(a, es, j);
      }
      forall i | 0 <= i < |es|
        ensures Truthful(a, es[i])
      {
        assert Unique(a, es, i);
      }
    }
    if AllTruthful(a, es) && AllDiffer(a, es) {
      forall i | 0 <= i < |es|
        ensures Unique(a, es, i)
      {
        forall j | 0 <= j < |es| && j != i
          ensures Differ(a, es[j], es[i])
        {
          assert if j < i then Differ(a, es[j], es[i]) else Differ(a, es[i], es[j]);
        }
      }
    }
  }

  lemma PageFitIff(a: Assets, entries: seq<Entry>, page: Page)
    ensures PageFit(a, entries, page) <==> GoodPage(a, ByName(entries).Keys, Names(entries), page)
  {
    NamesOfEntries(entries);
    forall f
      ensures PageShows(a, page, f) <==> ShowsImage(a, page, f)
    {
      PageShowsIff(a, page, f);
    }
    forall k | 0 <= k < |page.includes|
      ensures IncludeFit(entries, page.includes[k]) <==> WellFormed(ByName(entries).Keys, page.includes[k])
    {
    }
  }

  lemma ShownIff(a: Assets, pages: seq<Page>, f: string)
    ensures ShownAmong(a, pages, f) <==> ShownOnSome(a, pages, f)
  {
    forall page
      ensures PageShows(a, page, f) <==> ShowsImage(a, page, f)
    {
      PageShowsIff(a, page, f);
    }
    if page :| page in pages && ShowsImage(a, page, f) {
      var p :| 0 <= p < |pages| && pages[p] == page;
    }
  }

  ghost predicate AllGood(a: Assets, names: set<string>, files: seq<string>, pages: seq<Page>) {
    forall page <- pages :: GoodPage(a, names, files, page)
  }

  lemma PagesFitIff(a: Assets, es: seq<Entry>, pages: seq<Page>)
    ensures AllGood(a, ByName(es).Keys, Names(es), pages) <==> AllPagesFit(a, es, pages)
  {
    if AllGood(a, ByName(es).Keys, Names(es), pages) {
      forall p | 0 <= p < |pages|
        ensures PageFit(a, es, pages[p])
      {
        assert pages[p] in pages;
        PageFitIff(a, es, pages[p]);
      }
    }
    if AllPagesFit(a, es, pages) {
      forall page <- pages
        ensures GoodPage(a, ByName(es).Keys, Names(es), page)
      {
        var p :| 0 <= p < |pages| && pages[p] == page;
        assert PageFit(a, es, pages[p]);
        PageFitIff(a, es, page);
      }
    }
  }

  lemma PagesInOrderIff(a: Assets, es: seq<Entry>, pages: seq<Page>)
    ensures PagesInOrder(a, ByName(es).Keys, Names(es), pages) <==> AllPagesFit(a, es, pages) && AllShown(a, es, pages)
  {
    PagesFitIff(a, es, pages);
    AllShownIff(a, es, pages);
  }

  lemma AllShownIff(a: Assets, es: seq<Entry>, pages: seq<Page>)
    ensures (forall f <- Names(es) :: ShownAmong(a, pages, f)) <==> AllShown(a, es, pages)
  {
    NamesOfEntries(es);
    forall f
      ensures ShownAmong(a, pages, f) <==> ShownOnSome(a, pages, f)
    {
      ShownIff(a, pages, f);
    }
    forall i | 0 <= i < |es|
      ensures es[i].file in Names(es)
    {
      assert Listed(es, es[i].file);
    }
  }

  /** The gate stands for this. */
  lemma PublishableIff(a: Assets, input: Input)
    ensures Publishable(a, input) <==> Fit(a, input)
  {
    ManifestIff(a, input.count, input.entries, input.pngs);
    PagesIffFit(a, input);
  }

  lemma PagesIffFit(a: Assets, input: Input)
    requires ManifestInOrder(a, input.count, input.entries, input.pngs) <==> ManifestFit(a, input.count, input.entries, input.pngs)
    ensures Publishable(a, input) <==> Fit(a, input)
  {
    PagesInOrderIff(a, input.entries, input.pages);
  }

  lemma ManifestIff(a: Assets, count: int, es: seq<Entry>, pngs: seq<string>)
    ensures ManifestInOrder(a, count, es, pngs) <==> ManifestFit(a, count, es, pngs)
  {
    NamesOfEntries(es);
    if DistinctFiles(es) {
      AllFineIff(a, es);
    }
  }

  // ----- The verdict on the directory tree -----

  /** A page of the tree shows the file. */
  ghost predicate ShownOnATreePage(d: Docs, file: string) {
    exists f :: IsPublished(d, f) && PageShows(AssetsOf(d), Scanned(d, f), file)
  }

  ghost predicate TreePagesFit(d: Docs, es: seq<Entry>) {
    forall f | IsPublished(d, f) :: PageFit(AssetsOf(d), es, Scanned(d, f))
  }

  ghost predicate AllShownInTheTree(d: Docs, es: seq<Entry>) {
    forall i | 0 <= i < |es| :: ShownOnATreePage(d, es[i].file)
  }

  lemma TreePagesGoodIff(d: Docs, es: seq<Entry>)
    ensures TreePagesGood(d, ByName(es).Keys, Names(es)) <==> TreePagesFit(d, es)
  {
    forall f | IsPublished(d, f)
      ensures PageFit(AssetsOf(d), es, Scanned(d, f)) <==> GoodPage(AssetsOf(d), ByName(es).Keys, Names(es), Scanned(d, f))
    {
      PageFitIff(AssetsOf(d), es, Scanned(d, f));
    }
  }

  lemma AllShownInTheTreeIff(d: Docs, es: seq<Entry>)
    ensures FilesShown(d, Names(es)) <==> AllShownInTheTree(d, es)
  {
    NamesOfEntries(es);
    forall file
      ensures ShownInTheTree(d, file) <==> ShownOnATreePage(d, file)
    {
      ShownInTreeIff(d, file);
    }
    forall i | 0 <= i < |es|
      ensures es[i].file in Names(es)
    {
      assert Listed(es, es[i].file);
    }
  }

  lemma ShownInTreeIff(d: Docs, file: string)
    ensures ShownInTheTree(d, file) <==> ShownOnATreePage(d, file)
  {
    forall f
      ensures PageShows(AssetsOf(d), Scanned(d, f), file) <==> ShowsImage(AssetsOf(d), Scanned(d, f), file)
    {
      PageShowsIff(AssetsOf(d), Scanned(d, f), file);
    }
  }

  /** What the gate over the whole tree asks of the pages: each is well written and shows a listed file, and
      each listed file is shown on one. */
  lemma TreeInOrderIff(d: Docs, es: seq<Entry>)
    ensures TreeInOrder(d, ByName(es).Keys, Names(es)) <==> TreePagesFit(d, es) && AllShownInTheTree(d, es)
  {
    TreePagesGoodIff(d, es);
    ShownIffGood(d, es);
  }

  lemma ShownIffGood(d: Docs, es: seq<Entry>)
    requires TreePagesGood(d, ByName(es).Keys, Names(es)) <==> TreePagesFit(d, es)
    ensures TreeInOrder(d, ByName(es).Keys, Names(es)) <==> TreePagesFit(d, es) && AllShownInTheTree(d, es)
  {
    AllShownInTheTreeIff(d, es);
  }
}
