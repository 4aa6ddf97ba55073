/** The fail-closed inventory of a final file: the receipt of the parser against
    what was received, and for a PDF the proof that no page is missing. */
module OutputInventory {
  import opened Wrappers
  import opened Bytes
  import opened Collections
  import opened TableGrid
  import opened SourceContract
  import opened PageManifest
  import Text

  datatype Json =
    | Null | Bool(b: bool) | Str(s: string) | Number(bits: U32) | Array(items: seq<Json>)
    | Object(fields: map<string, Json>)

  datatype Entry = Entry(unitKey: string, part: string, kind: string, status: string, reason: Option<string>,
                         headingLevel: Option<U32>, fieldRegion: Option<string>)

  datatype Manifest = Manifest(
    schemaVersion: U32, profile: string, fileSha: string, parser: string, config: Json,
    pageCount: Option<U32>, pages: seq<SourcePage>, imageSha: map<string, string>, units: seq<Entry>)

  datatype ImageRef = ImageRef(originalRef: string, data: seq<Byte>)

  /** Metadata that is JSON: absent, malformed, or a value. */
  datatype Sidecar<+T> = Missing | Malformed | Decoded(value: T)

  datatype Received = Received(parsed: Parsed, error: string, images: seq<ImageRef>,
                               receipt: Sidecar<Manifest>, sidecar: Sidecar<Contract>)

  datatype InventoryFailure =
    | ParserError | ReceiptMissing | ReceiptMalformed | IdentityMismatch | UnsupportedType | SettingsMissing
    | ConfigMismatch | ImagesDiffer | SidecarMalformed | ContractInvalid(error: Failure) | PageReceipt
    | RevisionMismatch
    | CarrierMismatch | UnitMapping | NoPhysicalPage | PageDiffers | ImageUnknown | PagesIncomplete

  const PROFILE := "output_inventory_v1"

  // ---------- the receipt's header ----------

  /** Indexing of JSON: anything but a present field is null. */
  function Field(j: Json, name: string): Json {
    if j.Object? && name in j.fields then j.fields[name] else Null
  }

  ghost predicate ProfileOk(m: Manifest, expected: string) {
    && m.schemaVersion == 1 && m.profile == "output_inventory_v1" && m.fileSha == expected && !AllSpace(m.parser)
    && m.config.Object? && "profile" in m.config.fields && m.config.fields["profile"] == Str("output_inventory_v1")
  }

  /** The configuration of the profile for the file type, and an object of settings. */
  ghost predicate ConfigOk(config: Json, fileType: string) {
    && config.Object? && "settings" in config.fields && config.fields["settings"].Object?
    && (fileType == "docx" || fileType == "pdf")
    && config.fields - {"settings"} ==
       if fileType == "docx"
          then map["profile" := Str("output_inventory_v1"), "preserve_story_occurrences" := Bool(true)]
       else map["profile" := Str("output_inventory_v1"), "preserve_all_pages" := Bool(true),
                "preserve_page_images" := Bool(true), "text_cleaning" := Bool(false)]
  }

  function ExpectedConfig(fileType: string): Json
    requires fileType == "docx" || fileType == "pdf"
  {
    if fileType == "docx" then Object(map["profile" := Str(PROFILE), "preserve_story_occurrences" := Bool(true)])
    else Object(map["profile" := Str(PROFILE), "preserve_all_pages" := Bool(true),
                    "preserve_page_images" := Bool(true), "text_cleaning" := Bool(false)])
  }

  method CheckProfile(m: Manifest, expected: string) returns (ok: bool)
    ensures ok <==> ProfileOk(m, expected)
  {
    var blank := Blank(m.parser);
    ok := m.schemaVersion == 1 && m.profile == PROFILE && Field(m.config, "profile") == Str(PROFILE)
          && m.fileSha == expected && !blank;
  }

  /** The settings are taken out of a copy, and the rest is compared. */
  method CheckConfig(config: Json, fileType: string) returns (r: Result<(), InventoryFailure>)
    ensures r.Ok? <==> ConfigOk(config, fileType)
  {
    if fileType != "docx" && fileType != "pdf" { return Err(UnsupportedType); }
    if !config.Object? || "settings" !in config.fields || !config.fields["settings"].Object? {
      return Err(SettingsMissing);
    }
    if Object(config.fields - {"settings"}) != ExpectedConfig(fileType) { return Err(ConfigMismatch); }
    r := Ok(());
  }

  // ---------- image bytes ----------

  ghost predicate DistinctRefs(images: seq<ImageRef>) {
    forall i, j :: 0 <= i < j < |images| ==> images[i].originalRef != images[j].originalRef
  }

  /** The receipt names exactly the received images, by the digest of their bytes. */
  ghost predicate Receipted(images: seq<ImageRef>, receipt: map<string, string>, sha: Hash) {
    && DistinctRefs(images)
    && (forall i :: 0 <= i < |images| ==>
          images[i].originalRef in receipt && receipt[images[i].originalRef] == sha(images[i].data))
    && (forall k :: k in receipt ==> exists i :: 0 <= i < |images| && images[i].originalRef == k)
  }

  ghost predicate HasRef(images: seq<ImageRef>, key: string) {
    exists i :: 0 <= i < |images| && images[i].originalRef == key
  }

  ghost predicate Collected(images: seq<ImageRef>, collected: map<string, string>, sha: Hash) {
    && |collected| <= |images|
    && (|collected| == |images| ==> Receipted(images, collected, sha))
    && (DistinctRefs(images) ==> |collected| == |images|)
    && (forall k :: k in collected <==> HasRef(images, k))
  }

  lemma HasRefNext(images: seq<ImageRef>, image: ImageRef, key: string)
    ensures HasRef(images + [image], key) <==> HasRef(images, key) || image.originalRef == key
  {
    var all := images + [image];
    assert all[|images|] == image;
    if HasRef(images, key) {
      var i :| 0 <= i < |images| && images[i].originalRef == key;
      assert all[i].originalRef == key;
    }
  }

  lemma DistinctNext(images: seq<ImageRef>, image: ImageRef)
    requires DistinctRefs(images + [image])
    ensures DistinctRefs(images) && !HasRef(images, image.originalRef)
  {
    var all := images + [image];
    assert forall i :: 0 <= i < |images| ==> all[i] == images[i];
    assert all[|images|] == image;
  }

  lemma MapSize(m: map<string, string>, key: string, value: string)
    ensures |m[key := value]| == |m| + if key in m then 0 else 1
  {
    var next := m[key := value];
    assert next.Keys == m.Keys + {key};
    assert |next| == |next.Keys| && |m| == |m.Keys|;
  }

  lemma CollectNext(images: seq<ImageRef>, image: ImageRef, collected: map<string, string>, sha: Hash)
    requires Collected(images, collected, sha)
    ensures Collected(images + [image], collected[image.originalRef := sha(image.data)], sha)
  {
    var next := collected[image.originalRef := sha(image.data)];
    MapSize(collected, image.originalRef, sha(image.data));
    if DistinctRefs(images + [image]) { DistinctNext(images, image); }
    forall k ensures k in next <==> HasRef(images + [image], k) { HasRefNext(images, image, k); }
    if |next| == |images + [image]| { ReceiptNext(images, image, collected, sha); }
  }

  lemma ReceiptNext(images: seq<ImageRef>, image: ImageRef, receipt: map<string, string>, sha: Hash)
    requires Receipted(images, receipt, sha) && image.originalRef !in receipt
    ensures Receipted(images + [image], receipt[image.originalRef := sha(image.data)], sha)
  {
    var all := images + [image];
    var next := receipt[image.originalRef := sha(image.data)];
    forall k | k in next ensures exists i :: 0 <= i < |all| && all[i].originalRef == k {
      if k == image.originalRef {
        assert all[|images|].originalRef == k;
      } else {
        var i :| 0 <= i < |images| && images[i].originalRef == k;
        assert all[i].originalRef == k;
      }
    }
  }

  lemma ReceiptIsUnique(images: seq<ImageRef>, a: map<string, string>, b: map<string, string>, sha: Hash)
    requires Receipted(images, a, sha) && Receipted(images, b, sha)
    ensures a == b
  {
    forall k | k in a || k in b ensures k in a && k in b && a[k] == b[k] {
      var i :| 0 <= i < |images| && images[i].originalRef == k;
    }
  }

  /** Collecting into a map and comparing sizes finds a repeated reference. */
  method CheckImages(images: seq<ImageRef>, receipt: map<string, string>, sha: Hash) returns (ok: bool)
    ensures ok <==> Receipted(images, receipt, sha)
  {
    var collected: map<string, string> := map[];
    for n := 0 to |images|
      invariant Collected(images[..n], collected, sha)
    {
      CollectNext(images[..n], images[n], collected, sha);
      assert images[..n + 1] == images[..n] + [images[n]];
      collected := collected[images[n].originalRef := sha(images[n].data)];
    }
    assert images[..|images|] == images;
    ok := |collected| == |images| && collected == receipt;
    CollectedDecides(images, collected, receipt, sha);
  }

  lemma CollectedDecides(images: seq<ImageRef>, collected: map<string, string>, receipt: map<string, string>, sha: Hash)
    requires Collected(images, collected, sha)
    ensures |collected| == |images| && collected == receipt <==> Receipted(images, receipt, sha)
  {
    if Receipted(images, receipt, sha) { ReceiptIsUnique(images, receipt, collected, sha); }
  }

  // ---------- one unit of the receipt ----------

  /** The entry describes the unit. */
  ghost predicate EntryOk(e: Entry, u: Unit, ordinal: nat) {
    && (|| (u.kind == Section && e.kind in ["paragraphs", "section", "pdf_page"])
        || (u.kind == TableRegion && e.kind == "table")
        || (u.kind == ImageRegion && e.kind == "image" && e.status == "not_checked")
        || (u.kind == AttachmentRegion && e.kind == "not_checked" && e.status == "not_checked"))
    && u.ordinal == ordinal && e.unitKey == u.key && e.part != "" && e.kind != ""
    && (e.headingLevel.Some? ==> e.kind == "paragraphs" && 1 <= e.headingLevel.value <= 9)
    && (e.fieldRegion.Some? ==> e.fieldRegion.value == "toc" || e.fieldRegion.value == "field")
    && (e.status == "extracted" || e.status == "not_checked")
    && (e.status == "not_checked" <==> e.reason.Some? && e.reason.value != "")
  }

  predicate Compatible(e: Entry, kind: Kind) {
    match kind
    case Section => e.kind == "paragraphs" || e.kind == "section" || e.kind == "pdf_page"
    case TableRegion => e.kind == "table"
    case ImageRegion => e.kind == "image" && e.status == "not_checked"
    case AttachmentRegion => e.kind == "not_checked" && e.status == "not_checked"
    case _ => false
  }

  /** The checks of an entry after that of its kind and order. */
  predicate Maps(e: Entry, u: Unit) {
    var outline := e.headingLevel.None? || (e.kind == "paragraphs" && 1 <= e.headingLevel.value <= 9);
    var region := e.fieldRegion.None? || e.fieldRegion.value == "toc" || e.fieldRegion.value == "field";
    var explained := e.reason.Some? && e.reason.value != "";
    !(e.unitKey != u.key || e.part == "" || e.kind == "" || !outline || !region
      || (e.status != "extracted" && e.status != "not_checked") || (e.status == "not_checked") != explained)
  }

  /** A picture of a whole page: an image locator without edges. */
  predicate Unbounded(l: Locator) { l.Image? && l.edges == Box(None, None, None, None) }

  lemma UnboundedHasNoEdge(l: Locator)
    ensures Unbounded(l) <==>
            l.Image? && l.edges.left.None? && l.edges.top.None? && l.edges.right.None? && l.edges.bottom.None?
  {
  }

  function Find(units: seq<Identity>, key: string): Option<Identity> {
    if units == [] then None else if units[0].unitId == key then Some(units[0]) else Find(units[1..], key)
  }

  /** The part that a unit on `page` must name: the number is 32 bits wide. */
  function PagePart(page: U32): string { "pdf:page:" + Text.Decimal((page as int + 1) % 0x1_0000_0000) }

  /** The unit lies on a page, its part names that page, and an image of the whole
      page is in the receipt. */
  ghost predicate PdfUnit(d: Identity, e: Entry, u: Unit, imageSha: map<string, string>) {
    && (exists page: U32 :: StandsOn(d, page) && e.part == PagePart(page))
    && (Unbounded(u.locator) ==> u.locator.originalRef in imageSha)
  }

  /** The page an image of a whole page shows. */
  ghost predicate Shows(d: Identity, u: Unit, page: Option<nat>) {
    if Unbounded(u.locator) then page.Some? && StandsOn(d, page.value) else page.None?
  }

  lemma {:induction false} FindsItself(units: seq<Identity>, i: nat)
    requires i < |units| && Distinct(Ids(units))
    ensures Find(units, units[i].unitId) == Some(units[i])
  {
    if i > 0 {
      assert Ids(units)[0] != Ids(units)[i];
      assert Ids(units[1..]) == Ids(units)[1..];
      FindsItself(units[1..], i - 1);
    }
  }

  /** The checks of one PDF unit against its physical page. */
  method CheckPdfUnit(c: Contract, e: Entry, u: Unit, imageSha: map<string, string>, ghost i: nat)
    returns (r: Result<Option<nat>, InventoryFailure>)
    requires i < |c.units| && Distinct(Ids(c.units)) && c.units[i].unitId == u.key
    ensures r.Ok? <==> PdfUnit(c.units[i], e, u, imageSha)
    ensures r.Ok? ==> Shows(c.units[i], u, r.value)
  {
    FindsItself(c.units, i);
    var identity := Find(c.units, u.key);
    if identity.None? || identity.value.locator.None? { return Err(NoPhysicalPage); }
    PageStands(identity.value);
    var page := PhysicalPage(identity.value.locator.value);
    if page.None? { return Err(NoPhysicalPage); }
    assert StandsOn(c.units[i], page.value);
    if e.part != PagePart(page.value) { return Err(PageDiffers); }
    if Unbounded(u.locator) {
      if u.locator.originalRef !in imageSha { return Err(ImageUnknown); }
      return Ok(Some(page.value));
    }
    r := Ok(None);
  }

  // ---------- the loop over the units ----------

  ghost predicate DistinctKeys(entries: seq<Entry>) {
    forall i, j :: 0 <= i < j < |entries| ==> entries[i].unitKey != entries[j].unitKey
  }

  /** One of the first `n` units is a picture of the whole page `p`. */
  ghost predicate Pictured(units: seq<Unit>, identities: seq<Identity>, n: nat, p: int)
    requires n <= |units| == |identities|
  {
    exists i :: 0 <= i < n && Unbounded(units[i].locator) && StandsOn(identities[i], p)
  }

  lemma PicturedNext(units: seq<Unit>, identities: seq<Identity>, n: nat, pages: set<nat>, next: set<nat>)
    requires n < |units| == |identities|
    requires forall p :: p in pages <==> Pictured(units, identities, n, p)
    requires forall p: nat :: p in next <==> p in pages || (Unbounded(units[n].locator) && StandsOn(identities[n], p))
    ensures forall p :: p in next <==> Pictured(units, identities, n + 1, p)
  {
  }

  ghost predicate Keyed(entries: seq<Entry>, n: nat, key: string)
    requires n <= |entries|
  {
    exists i :: 0 <= i < n && entries[i].unitKey == key
  }

  ghost predicate EntriesOk(entries: seq<Entry>, units: seq<Unit>)
    requires |entries| == |units|
  {
    DistinctKeys(entries) && forall i :: 0 <= i < |units| ==> EntryOk(entries[i], units[i], i)
  }

  ghost predicate PdfUnitsOk(c: Contract, m: Manifest, units: seq<Unit>)
    requires |m.units| == |units| == |c.units|
  {
    forall i :: 0 <= i < |units| ==> PdfUnit(c.units[i], m.units[i], units[i], m.imageSha)
  }

  ghost predicate Aligned(pdf: bool, c: Option<Contract>, units: seq<Unit>) {
    pdf ==> c.Some? && |c.value.units| == |units| && Distinct(Ids(c.value.units))
            && forall i :: 0 <= i < |units| ==> c.value.units[i].unitId == units[i].key
  }

  /** One turn of the unit loop; the answer is the page this unit pictures. */
  method CheckEntry(m: Manifest, units: seq<Unit>, n: nat, keys: set<string>, pdf: bool, c: Option<Contract>)
    returns (r: Result<Option<nat>, InventoryFailure>)
    requires n < |m.units| == |units| && Aligned(pdf, c, units)
    ensures r.Ok? <==> EntryOk(m.units[n], units[n], n) && m.units[n].unitKey !in keys
                       && (pdf ==> PdfUnit(c.value.units[n], m.units[n], units[n], m.imageSha))
    ensures r.Ok? && pdf ==> Shows(c.value.units[n], units[n], r.value)
  {
    var e, u := m.units[n], units[n];
    if !Compatible(e, u.kind) || u.ordinal != n { return Err(CarrierMismatch); }
    if e.unitKey in keys || !Maps(e, u) { return Err(UnitMapping); }
    if pdf {
      r := CheckPdfUnit(c.value, e, u, m.imageSha, n);
    } else {
      r := Ok(None);
    }
  }

  ghost predicate EntryPasses(m: Manifest, units: seq<Unit>, pdf: bool, c: Option<Contract>, i: nat)
    requires |m.units| == |units| && Aligned(pdf, c, units) && i < |units|
  {
    EntryOk(m.units[i], units[i], i) && (pdf ==> PdfUnit(c.value.units[i], m.units[i], units[i], m.imageSha))
  }

  method CheckEntries(m: Manifest, units: seq<Unit>, pdf: bool, c: Option<Contract>)
    returns (r: Result<(), InventoryFailure>, pageImages: set<nat>)
    requires |m.units| == |units| && Aligned(pdf, c, units)
    ensures r.Ok? <==> EntriesOk(m.units, units) && (pdf ==> PdfUnitsOk(c.value, m, units))
    ensures r.Ok? && pdf ==> forall p :: p in pageImages <==> Pictured(units, c.value.units, |units|, p)
  {
    var keys: set<string> := {};
    pageImages := {};
    for n := 0 to |units|
      invariant forall i :: 0 <= i < n ==> EntryPasses(m, units, pdf, c, i)
      invariant forall i, j :: 0 <= i < j < n ==> m.units[i].unitKey != m.units[j].unitKey
      invariant forall k :: k in keys <==> Keyed(m.units, n, k)
      invariant pdf ==> forall p :: p in pageImages <==> Pictured(units, c.value.units, n, p)
    {
      var page := CheckEntry(m, units, n, keys, pdf, c);
      if page.Err? { return Err(page.error), {}; }
      assert EntryPasses(m, units, pdf, c, n);
      keys := keys + {m.units[n].unitKey};
      ghost var before := pageImages;
      if page.value.Some? { pageImages := pageImages + {page.value.value}; }
      if pdf { PicturedNext(units, c.value.units, n, before, pageImages); }
    }
    AllPass(m, units, pdf, c);
    r := Ok(());
  }

  lemma AllPass(m: Manifest, units: seq<Unit>, pdf: bool, c: Option<Contract>)
    requires |m.units| == |units| && Aligned(pdf, c, units) && DistinctKeys(m.units)
    requires forall i :: 0 <= i < |units| ==> EntryPasses(m, units, pdf, c, i)
    ensures EntriesOk(m.units, units) && (pdf ==> PdfUnitsOk(c.value, m, units))
  {
    forall i | 0 <= i < |units|
      ensures EntryOk(m.units[i], units[i], i) && (pdf ==> PdfUnit(c.value.units[i], m.units[i], units[i], m.imageSha))
    {
      assert EntryPasses(m, units, pdf, c, i);
    }
  }

  // ---------- the whole inventory ----------

  ghost predicate SidecarOk(got: Received, sha: Hash) {
    got.sidecar.Missing? || (got.sidecar.Decoded? && Accepted(got.sidecar.value, got.parsed, sha))
  }

  ghost predicate OnManifest(m: Manifest, p: int) { exists i :: 0 <= i < |m.pages| && m.pages[i].ordinal == p }

  /** Every page from the first to the last announced one is in the manifest and
      pictured whole, and no other. */
  ghost predicate PagesComplete(c: Contract, m: Manifest, units: seq<Unit>)
    requires |units| == |c.units|
  {
    && m.pageCount.Some? && m.pageCount.value > 0
    && (forall p: nat :: OnManifest(m, p) <==> p < m.pageCount.value)
    && (forall p: nat :: Pictured(units, c.units, |units|, p) <==> p < m.pageCount.value)
  }

  ghost predicate InventoryOk(got: Received, expected: string, fileType: string, sha: Hash) {
    && got.error == "" && got.receipt.Decoded? && (fileType == "docx" || fileType == "pdf")
    && var m, units := got.receipt.value, got.parsed.units;
       && ProfileOk(m, expected) && ConfigOk(m.config, fileType)
       && m.units != [] && |m.units| == |units|
       && Receipted(got.images, m.imageSha, sha) && SidecarOk(got, sha)
       && (got.sidecar.Decoded? ==> got.sidecar.value.revision == expected)
       && EntriesOk(m.units, units)
       && (fileType == "pdf" ==>
             && got.sidecar.Decoded? && got.sidecar.value.pages == m.pages
             && PdfUnitsOk(got.sidecar.value, m, units) && PagesComplete(got.sidecar.value, m, units))
  }

  method ReadSidecar(got: Received, sha: Hash) returns (r: Result<Option<Contract>, InventoryFailure>)
    ensures r.Ok? <==> SidecarOk(got, sha)
    ensures r.Ok? ==> r.value == if got.sidecar.Decoded? then Some(got.sidecar.value) else None
  {
    if got.sidecar.Missing? { return Ok(None); }
    if got.sidecar.Malformed? { return Err(SidecarMalformed); }
    var valid := Validate(got.sidecar.value, got.parsed, sha);
    if valid.Err? { return Err(ContractInvalid(valid.error)); }
    r := Ok(Some(got.sidecar.value));
  }

  method ManifestPages(m: Manifest) returns (pages: set<nat>)
    ensures forall p: nat :: p in pages <==> OnManifest(m, p)
  {
    pages := {};
    for n := 0 to |m.pages|
      invariant forall p: nat :: p in pages <==> exists i :: 0 <= i < n && m.pages[i].ordinal == p
    {
      pages := pages + {m.pages[n].ordinal};
    }
  }

  method CheckPageCount(c: Contract, m: Manifest, units: seq<Unit>, pageImages: set<nat>) returns (ok: bool)
    requires |units| == |c.units|
    requires forall p :: p in pageImages <==> Pictured(units, c.units, |units|, p)
    ensures ok <==> PagesComplete(c, m, units)
  {
    var pages := ManifestPages(m);
    if m.pageCount.None? || m.pageCount.value == 0 { return false; }
    ok := pages == Interval(0, m.pageCount.value) && pageImages == pages;
    PagesDecide(c, m, units, pages, pageImages);
  }

  lemma PagesDecide(c: Contract, m: Manifest, units: seq<Unit>, pages: set<nat>, pageImages: set<nat>)
    requires |units| == |c.units| && m.pageCount.Some? && m.pageCount.value > 0
    requires forall p: nat :: p in pages <==> OnManifest(m, p)
    requires forall p: nat :: p in pageImages <==> Pictured(units, c.units, |units|, p)
    ensures PagesComplete(c, m, units) <==> pages == Interval(0, m.pageCount.value) && pageImages == pages
  {
    if PagesComplete(c, m, units) {
      IsInterval(pages, 0, m.pageCount.value);
      IsInterval(pageImages, 0, m.pageCount.value);
    }
  }

  /** The inventory is accepted exactly when the receipt matches what came in. */
  method ValidateOutputInventory(got: Received, expected: string, fileType: string, sha: Hash)
    returns (r: Result<Manifest, InventoryFailure>)
    ensures r.Ok? <==> InventoryOk(got, expected, fileType, sha)
    ensures r.Ok? ==> r.value == got.receipt.value
  {
    if got.error != "" { return Err(ParserError); }
    if got.receipt.Missing? { return Err(ReceiptMissing); }
    if got.receipt.Malformed? { return Err(ReceiptMalformed); }
    var m := got.receipt.value;
    var profile := CheckProfile(m, expected);
    if !profile { return Err(IdentityMismatch); }
    var config := CheckConfig(m.config, fileType);
    if config.Err? { return Err(config.error); }
    if m.units == [] || |m.units| != |got.parsed.units| { return Err(ConfigMismatch); }
    var images := CheckImages(got.images, m.imageSha, sha);
    if !images { return Err(ImagesDiffer); }
    var sidecar := ReadSidecar(got, sha);
    if sidecar.Err? { return Err(sidecar.error); }
    r := CheckUnitsAndPages(got, m, expected, fileType == "pdf", sidecar.value, sha);
  }

  method CheckUnitsAndPages(got: Received, m: Manifest, expected: string, pdf: bool, c: Option<Contract>,
                            ghost sha: Hash)
    returns (r: Result<Manifest, InventoryFailure>)
    requires |m.units| == |got.parsed.units| && (c.Some? ==> Accepted(c.value, got.parsed, sha))
    ensures r.Ok? <==> && (c.Some? ==> c.value.revision == expected) && EntriesOk(m.units, got.parsed.units)
                       && (pdf ==> c.Some? && c.value.pages == m.pages && PdfUnitsOk(c.value, m, got.parsed.units)
                                   && PagesComplete(c.value, m, got.parsed.units))
    ensures r.Ok? ==> r.value == m
  {
    if pdf && (c.None? || c.value.pages != m.pages || c.value.revision != expected) { return Err(PageReceipt); }
    if c.Some? && c.value.revision != expected { return Err(RevisionMismatch); }
    assert Aligned(pdf, c, got.parsed.units) by {
      if c.Some? {
        forall i | 0 <= i < |c.value.units| ensures c.value.units[i].unitId == got.parsed.units[i].key {
          assert UnitPasses(c.value, got.parsed.units, i, got.parsed.markdown, sha);
        }
      }
    }
    var entries, pageImages := CheckEntries(m, got.parsed.units, pdf, c);
    if entries.Err? { return Err(entries.error); }
    if pdf {
      var complete := CheckPageCount(c.value, m, got.parsed.units, pageImages);
      if !complete { return Err(PagesIncomplete); }
    }
    r := Ok(m);
  }

  /** No page of an accepted PDF is missing: the manifest is the pages 0 to
      count - 1 in order, and each lists a unit that pictures the whole page and
      whose received bytes have the digest of the receipt. */
  lemma EveryPageIsPictured(got: Received, expected: string, sha: Hash, p: nat) returns (i: nat, k: nat)
    requires InventoryOk(got, expected, "pdf", sha) && p < got.receipt.value.pageCount.value
    ensures |got.receipt.value.pages| == got.receipt.value.pageCount.value && got.receipt.value.pages[p].ordinal == p
    ensures i < |got.parsed.units| && Unbounded(got.parsed.units[i].locator)
    ensures got.parsed.units[i].locator.pageOrdinal == Some(p)
    ensures got.parsed.units[i].key in got.receipt.value.pages[p].unitIds
    ensures k < |got.images| && got.images[k].originalRef == got.parsed.units[i].locator.originalRef
    ensures got.images[k].originalRef in got.receipt.value.imageSha
    ensures got.receipt.value.imageSha[got.images[k].originalRef] == sha(got.images[k].data)
  {
    ManifestIsAllPages(got.sidecar.value, got.receipt.value, got.parsed.units);
    i := PageHasPicture(got.sidecar.value, got.receipt.value, got.parsed.units, got.parsed.markdown, sha, p);
    k := PictureIsReceived(got.images, got.receipt.value.imageSha, sha, got.parsed.units[i].locator.originalRef);
  }

  lemma PageHasPicture(c: Contract, m: Manifest, units: seq<Unit>, markdown: seq<Byte>, sha: Hash, p: nat)
    returns (i: nat)
    requires UnitsOk(c, units, markdown, sha) && Partitions(c) && c.pages == m.pages && |m.units| == |units|
    requires PagesComplete(c, m, units) && PdfUnitsOk(c, m, units) && p < |m.pages| == m.pageCount.value
    ensures i < |units| && Unbounded(units[i].locator) && units[i].locator.pageOrdinal == Some(p)
    ensures units[i].key in m.pages[p].unitIds && units[i].locator.originalRef in m.imageSha
  {
    assert Pictured(units, c.units, |units|, p);
    i :| 0 <= i < |units| && Unbounded(units[i].locator) && StandsOn(c.units[i], p);
    assert UnitPasses(c, units, i, markdown, sha);
    assert PdfUnit(c.units[i], m.units[i], units[i], m.imageSha);
    assert PageExact(c, p) && OnPage(c, p, units[i].key) && Lists(m.pages[p], units[i].key);
  }

  lemma PictureIsReceived(images: seq<ImageRef>, receipt: map<string, string>, sha: Hash, key: string) returns (k: nat)
    requires Receipted(images, receipt, sha) && key in receipt
    ensures k < |images| && images[k].originalRef == key && receipt[key] == sha(images[k].data)
  {
    k :| 0 <= k < |images| && images[k].originalRef == key;
  }

  lemma ManifestIsAllPages(c: Contract, m: Manifest, units: seq<Unit>)
    requires Partitions(c) && c.pages == m.pages && |units| == |c.units| && PagesComplete(c, m, units)
    ensures |m.pages| == m.pageCount.value && forall p :: 0 <= p < |m.pages| ==> m.pages[p].ordinal == p
  {
    forall p | 0 <= p < |m.pages| ensures m.pages[p].ordinal == p { assert PageExact(c, p); }
    var n: nat := |m.pages|;
    var count: nat := m.pageCount.value;
    assert !OnManifest(m, n);
    assert count < n ==> m.pages[count].ordinal == count;
    assert count < n ==> OnManifest(m, count);
  }

  /** In an accepted PDF the page number of a part never wraps around: every unit
      lies on an announced page and its part names that page, counted from one. */
  lemma PartsNameTheirPages(got: Received, expected: string, sha: Hash, i: nat) returns (page: nat)
    requires InventoryOk(got, expected, "pdf", sha) && i < |got.parsed.units|
    ensures StandsOn(got.sidecar.value.units[i], page) && page < got.receipt.value.pageCount.value
    ensures got.receipt.value.units[i].part == "pdf:page:" + Text.Decimal(page + 1)
  {
    page := PartNamesItsPage(got.sidecar.value, got.receipt.value, got.parsed.units, i);
  }

  lemma PartNamesItsPage(c: Contract, m: Manifest, units: seq<Unit>, i: nat) returns (page: nat)
    requires Partitions(c) && c.pages == m.pages && i < |units| == |c.units| == |m.units| && PagesComplete(c, m, units)
    requires PdfUnitsOk(c, m, units)
    ensures StandsOn(c.units[i], page) && page < m.pageCount.value
    ensures m.units[i].part == "pdf:page:" + Text.Decimal(page + 1)
  {
    assert PdfUnit(c.units[i], m.units[i], units[i], m.imageSha);
    page :| page < 0x1_0000_0000 && StandsOn(c.units[i], page) && m.units[i].part == PagePart(page);
    AnnouncedPage(c, m, units, i, page);
  }

  lemma AnnouncedPage(c: Contract, m: Manifest, units: seq<Unit>, i: nat, page: U32)
    requires Partitions(c) && c.pages == m.pages && i < |units| == |c.units| && PagesComplete(c, m, units)
    requires StandsOn(c.units[i], page)
    ensures page < m.pageCount.value && PagePart(page) == "pdf:page:" + Text.Decimal(page as int + 1)
  {
    ManifestIsAllPages(c, m, units);
    assert Paged(c, i);
    assert (page as int + 1) % 0x1_0000_0000 == page as int + 1;
  }
}
