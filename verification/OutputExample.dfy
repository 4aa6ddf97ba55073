/** The smallest accepted PDF: one page with its picture, a section and a table. */
module OutputExample {
  import opened Wrappers
  import opened Bytes
  import opened TableGrid
  import opened SourceContract
  import opened PageManifest
  import opened OutputInventory
  import GridDigest
  import Rendered

  const NO_EDGES: Box<Option<Coordinate>> := Box(None, None, None, None)
  const CORNER: Box<Coordinate> := Box(Finite(0.0), Finite(0.0), Finite(1.0), Finite(1.0))
  const GRID: Grid := Grid(1, 1, [Cell(0, 0, 1, 1, [])], None)

  const SECTION: Unit := Unit("page:0:section:0", 0, Section, [], Page(0, NO_EDGES), None)
  const TABLE: Unit := Unit("page:0:table:0", 1, TableRegion, [], PageTable(0, 0, CORNER), Some(GRID))
  const PICTURE: Unit := Unit("page:0:image:0", 2, ImageRegion, [],
                              Image("images/page.png", 10, 10, "image/png", Some(0), None, NO_EDGES), None)

  function IdentityOf(u: Unit, sha: Hash): Identity {
    Identity(u.key, u.ordinal, u.kind, sha(u.text),
             if u.grid.Some? then Some(sha(GridDigest.Preimage(u.grid.value))) else None,
             None, None, None, Some(u.locator), None, [], Complete, [], if u.grid.Some? then Some(u.key) else None, [])
  }

  function PageZero(): SourcePage {
    SourcePage(0, "scanned", [SECTION.key, TABLE.key, PICTURE.key], [PICTURE.key])
  }

  function ContractOf(revision: string, sha: Hash): Contract {
    Contract(2, revision, "pdf/1", sha([]),
             [IdentityOf(SECTION, sha), IdentityOf(TABLE, sha), IdentityOf(PICTURE, sha)],
             [PageZero()], true)
  }

  function EntryOf(u: Unit, kind: string): Entry {
    if u.kind == ImageRegion then Entry(u.key, "pdf:page:1", kind, "not_checked", Some("image content"), None, None)
    else Entry(u.key, "pdf:page:1", kind, "extracted", None, None, None)
  }

  function ManifestOf(revision: string, sha: Hash): Manifest {
    Manifest(1, "output_inventory_v1", revision, "pdf/1",
             Object(map["profile" := Str("output_inventory_v1"), "preserve_all_pages" := Bool(true),
                        "preserve_page_images" := Bool(true), "text_cleaning" := Bool(false),
                        "settings" := Object(map[])]),
             Some(1), [PageZero()], map["images/page.png" := sha([1, 2, 3])],
             [EntryOf(SECTION, "pdf_page"), EntryOf(TABLE, "table"), EntryOf(PICTURE, "image")])
  }

  lemma GridTiles()
    ensures Tiles(GRID) && WidthsOk(GRID)
  {
    forall s: Slot | InGrid(GRID, s) ensures CoverCount(GRID.cells, s) == 1 {
      assert GRID.cells[..0] == [];
      assert Covers(GRID.cells[0], s);
    }
  }

  lemma UnitPassesHere(u: Unit, sha: Hash)
    requires u == SECTION || u == TABLE || u == PICTURE
    ensures IdentityOk(IdentityOf(u, sha), u, u.ordinal, [], sha)
  {
    GridTiles();
  }

  const UNITS: seq<Unit> := [SECTION, TABLE, PICTURE]

  lemma UnitsPass(revision: string, sha: Hash)
    ensures UnitsOk(ContractOf(revision, sha), UNITS, [], sha)
  {
    var c := ContractOf(revision, sha);
    forall i: nat | i < 3 ensures UnitPasses(c, UNITS, i, [], sha) { UnitPassesHere(UNITS[i], sha); }
    var ids := Ids(c.units);
    assert ids[0] == SECTION.key && ids[1] == TABLE.key && ids[2] == PICTURE.key;
    KeysDiffer();
  }

  lemma KeysDiffer()
    ensures SECTION.key != TABLE.key && SECTION.key != PICTURE.key && TABLE.key != PICTURE.key
  {
    assert SECTION.key[7] == 's' && TABLE.key[7] == 't' && PICTURE.key[7] == 'i';
  }

  lemma PageListsAll(c: Contract, sha: Hash)
    requires c.units == [IdentityOf(SECTION, sha), IdentityOf(TABLE, sha), IdentityOf(PICTURE, sha)]
    ensures forall k: string :: OnPage(c, 0, k) <==> k == SECTION.key || k == TABLE.key || k == PICTURE.key
    ensures forall k: string :: IsImage(c, k) ==> k == PICTURE.key
    ensures IsImage(c, PICTURE.key)
    ensures forall i :: 0 <= i < 3 ==> StandsOn(c.units[i], 0)
  {
    assert c.units[0].unitId == SECTION.key && StandsOn(c.units[0], 0);
    assert c.units[1].unitId == TABLE.key && StandsOn(c.units[1], 0);
    assert c.units[2].unitId == PICTURE.key && StandsOn(c.units[2], 0) && c.units[2].kind == ImageRegion;
  }

  lemma PageZeroLists()
    ensures Distinct(PageZero().unitIds) && Distinct(PageZero().imageIds) && PageNamed(PageZero(), 0)
    ensures forall k: string :: Lists(PageZero(), k) <==> k == SECTION.key || k == TABLE.key || k == PICTURE.key
    ensures forall k: string :: ListsImage(PageZero(), k) <==> k == PICTURE.key
  {
    KeysDiffer();
  }

  lemma OnlyPage(c: Contract, sha: Hash)
    requires c.units == [IdentityOf(SECTION, sha), IdentityOf(TABLE, sha), IdentityOf(PICTURE, sha)]
    requires c.pages == [PageZero()]
    ensures Partitions(c)
  {
    PageZeroLists();
    PageListsAll(c, sha);
    assert PageExact(c, 0);
    forall i | 0 <= i < 3 ensures Paged(c, i) { assert StandsOn(c.units[i], 0) && 0 < |c.pages|; }
  }

  lemma PagePictured(revision: string, sha: Hash)
    ensures PagesComplete(ContractOf(revision, sha), ManifestOf(revision, sha), UNITS)
  {
    var c, m := ContractOf(revision, sha), ManifestOf(revision, sha);
    PageListsAll(c, sha);
    assert m.pages[0].ordinal == 0;
    assert Unbounded(UNITS[2].locator);
    forall p: nat ensures Pictured(UNITS, c.units, 3, p) <==> p < 1 {
      if p == 0 { assert StandsOn(c.units[2], 0); }
    }
  }

  lemma FirstPart()
    ensures PagePart(0) == "pdf:page:1"
  {
    assert Text.Decimal(1) == "1";
  }

  lemma PartHere(d: Identity, e: Entry, u: Unit, imageSha: map<string, string>)
    requires StandsOn(d, 0) && e.part == PagePart(0) && (Unbounded(u.locator) ==> u.locator.originalRef in imageSha)
    ensures PdfUnit(d, e, u, imageSha)
  {
  }

  lemma PartsHere(c: Contract, m: Manifest, sha: Hash)
    requires c.units == [IdentityOf(SECTION, sha), IdentityOf(TABLE, sha), IdentityOf(PICTURE, sha)]
    requires m.units == [EntryOf(SECTION, "pdf_page"), EntryOf(TABLE, "table"), EntryOf(PICTURE, "image")]
    requires "images/page.png" in m.imageSha
    ensures PdfUnitsOk(c, m, UNITS)
  {
    PageListsAll(c, sha);
    FirstPart();
    PartHere(c.units[0], m.units[0], SECTION, m.imageSha);
    PartHere(c.units[1], m.units[1], TABLE, m.imageSha);
    PartHere(c.units[2], m.units[2], PICTURE, m.imageSha);
  }

  lemma EntryHere(i: nat)
    requires i < 3
    ensures EntryOk(EntryOf(UNITS[i], ["pdf_page", "table", "image"][i]), UNITS[i], i)
  {
  }

  lemma EntriesHere(m: Manifest)
    requires m.units == [EntryOf(SECTION, "pdf_page"), EntryOf(TABLE, "table"), EntryOf(PICTURE, "image")]
    ensures EntriesOk(m.units, UNITS)
  {
    KeysDiffer();
    forall i | 0 <= i < 3 ensures EntryOk(m.units[i], UNITS[i], i) { EntryHere(i); }
  }

  lemma HeaderHere(revision: string, sha: Hash)
    requires |revision| == 64 && forall i :: 0 <= i < 64 ==> revision[i] in "0123456789abcdefABCDEF"
    ensures HeaderOk(ContractOf(revision, sha), FINAL, sha) && CountOk(ContractOf(revision, sha), Some("1"))
    ensures ProfileOk(ManifestOf(revision, sha), revision) && ConfigOk(ManifestOf(revision, sha).config, "pdf")
  {
    assert !AllSpace("pdf/1") by { assert "pdf/1"[0] == 'p'; }
    assert "1"[..0] == "" && Text.DecimalValue("1") == 1;
    var fields := ManifestOf(revision, sha).config.fields;
    assert fields - {"settings"} == map["profile" := Str("output_inventory_v1"), "preserve_all_pages" := Bool(true),
                                        "preserve_page_images" := Bool(true), "text_cleaning" := Bool(false)];
  }

  const FINAL: Parsed := Parsed([], UNITS, Some("1"))
  const PNG: ImageRef := ImageRef("images/page.png", [1, 2, 3])

  lemma ImageHere(sha: Hash)
    ensures Receipted([PNG], map["images/page.png" := sha([1, 2, 3])], sha)
  {
    assert [PNG][0].originalRef == "images/page.png";
  }

  lemma AcceptedHere(revision: string, sha: Hash)
    requires |revision| == 64 && forall i :: 0 <= i < 64 ==> revision[i] in "0123456789abcdefABCDEF"
    ensures Accepted(ContractOf(revision, sha), FINAL, sha)
  {
    UnitsPass(revision, sha);
    OnlyPage(ContractOf(revision, sha), sha);
    HeaderHere(revision, sha);
  }

  /** A PDF with a section, a table and the picture of its page passes, whatever
      its revision and digests. */
  lemma Passes(revision: string, sha: Hash)
    requires |revision| == 64 && forall i :: 0 <= i < 64 ==> revision[i] in "0123456789abcdefABCDEF"
    ensures InventoryOk(Received(FINAL, "", [PNG], Decoded(ManifestOf(revision, sha)),
                                 Decoded(ContractOf(revision, sha))),
                        revision, "pdf", sha)
  {
    AcceptedHere(revision, sha);
    HeaderHere(revision, sha);
    PagePictured(revision, sha);
    PartsHere(ContractOf(revision, sha), ManifestOf(revision, sha), sha);
    EntriesHere(ManifestOf(revision, sha));
    ImageHere(sha);
  }
}
