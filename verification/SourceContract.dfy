/** The source contract: unit identities, their native carriers and rendered spans,
    checked one unit at a time while the set of identities grows. */
module SourceContract {
  import opened Wrappers
  import opened Bytes
  import opened TableGrid
  import Text
  import GridDigest
  import Rendered

  /** A double up to its IEEE 754 comparison: NaN equals nothing. */
  datatype Coordinate = NotANumber | Infinite(negative: bool) | Finite(value: real)
  datatype Box<+T> = Box(left: T, top: T, right: T, bottom: T)

  datatype Kind = Section | TableRow | TableRegion | FormRegion | AttachmentRegion | ImageRegion

  datatype Parent =
    | Paragraph(section: U32, paragraph: U32)
    | TableCell(section: U32, table: U32, row: U32, cell: U32)
    | Form(section: U32, form: U32)

  /** The regions, cells and tables of a worksheet are its serialized content. */
  datatype Worksheet = Worksheet(ordinal: U32, name: string, content: seq<Byte>)

  datatype Locator =
    | Document(section: U32, table: Option<U32>, row: Option<U32>, form: Option<U32>, headingPath: string)
    | Page(page: U32, edges: Box<Option<Coordinate>>)
    | PageTable(page: U32, ordinal: U32, box: Box<Coordinate>)
    | Spreadsheet(sheet: Worksheet)
    | Image(originalRef: string, width: U32, height: U32, mediaType: string, pageOrdinal: Option<U32>,
            parent: Option<Parent>, edges: Box<Option<Coordinate>>)
    | Attachment(partName: string, relationship: string)

  datatype Unit = Unit(key: string, ordinal: U32, kind: Kind, text: seq<Byte>, locator: Locator, grid: Option<Grid>)

  datatype Completeness = Complete | Partial | Failed
  datatype HeaderCell = HeaderCell(row: U32, column: U32, role: string)

  datatype Identity = Identity(
    unitId: string, ordinal: U32, kind: Kind, textSha: string, gridSha: Option<string>,
    section: Option<string>, parentSection: Option<string>, headingLevel: Option<U32>,
    locator: Option<Locator>, unavailable: Option<string>,
    spans: seq<Rendered.Span>, completeness: Completeness, reasons: seq<string>,
    tableId: Option<string>, headers: seq<HeaderCell>)

  datatype SourcePage = SourcePage(ordinal: U32, classification: string, unitIds: seq<string>, imageIds: seq<string>)

  /** `glyphsVerified` is the outcome of the check of the glyph normalizations. */
  datatype Contract = Contract(
    schemaVersion: U32, revision: string, parserVersion: string, markdownSha: string,
    units: seq<Identity>, pages: seq<SourcePage>, glyphsVerified: bool)

  datatype Failure =
    | Glyphs | HeaderMismatch | InvalidIdentity | NoLocation | LocatorDiffers | InvalidSpan | TableDiffers
    | InvalidGrid(error: GridError) | HeaderUnanchored
    | PageOrder | UnknownUnit | PageMismatch | PageImages | OmittedUnits | PageCount | PageCoverage

  type Hash = seq<Byte> -> string

  // ---------- one unit ----------

  function PhysicalPage(l: Locator): Option<U32> {
    match l
    case Page(page, _) => Some(page)
    case PageTable(page, _, _) => Some(page)
    case Image(_, _, _, _, page, _, _) => page
    case _ => None
  }

  /** The unit lies on page `p`: a page, a page table, or an image that names one. */
  ghost predicate StandsOn(d: Identity, p: int) {
    d.locator.Some?
    && var l := d.locator.value;
       (l.Page? && l.page == p) || (l.PageTable? && l.page == p) || (l.Image? && l.pageOrdinal == Some(p))
  }

  function PageOf(d: Identity): Option<U32> {
    if d.locator.Some? then PhysicalPage(d.locator.value) else None
  }

  /** The physical page is the page a unit lies on. */
  lemma PageStands(d: Identity)
    ensures forall p: int :: StandsOn(d, p) <==> PageOf(d).Some? && PageOf(d).value == p
  {
  }

  predicate Comparable(c: Option<Coordinate>) { c.None? || !c.value.NotANumber? }

  predicate HasNoNaN(l: Locator) {
    match l
    case Page(_, e) => Comparable(e.left) && Comparable(e.top) && Comparable(e.right) && Comparable(e.bottom)
    case Image(_, _, _, _, _, _, e) =>
      Comparable(e.left) && Comparable(e.top) && Comparable(e.right) && Comparable(e.bottom)
    case PageTable(_, _, b) =>
      !b.left.NotANumber? && !b.top.NotANumber? && !b.right.NotANumber? && !b.bottom.NotANumber?
    case _ => true
  }

  /** Equality of locators as the program has it, which fails on NaN. */
  predicate SameLocator(a: Option<Locator>, b: Locator) { a == Some(b) && HasNoNaN(b) }

  /** A locator equals itself unless one of its coordinates is NaN. */
  lemma LocatorEqualsItself(l: Locator)
    ensures l.Page? || l.Image? ==>
              (SameLocator(Some(l), l) <==>
               Some(NotANumber) !in [l.edges.left, l.edges.top, l.edges.right, l.edges.bottom])
    ensures l.PageTable? ==>
              (SameLocator(Some(l), l) <==> NotANumber !in [l.box.left, l.box.top, l.box.right, l.box.bottom])
    ensures l.Document? || l.Spreadsheet? || l.Attachment? ==> SameLocator(Some(l), l)
    ensures forall k: Option<Locator> :: SameLocator(k, l) ==> k == Some(l)
  {
  }

  ghost predicate AllSpace(s: string) { forall i :: 0 <= i < |s| ==> Text.IsSpace(s[i]) }

  /** What makes an identity valid for the native unit with the same ordinal. */
  ghost predicate IdentityOk(d: Identity, u: Unit, ordinal: nat, markdown: seq<Byte>, sha: Hash) {
    && d.unitId == u.key && u.key != "" && d.ordinal == ordinal && u.ordinal == ordinal && d.kind == u.kind
    && d.textSha == sha(u.text)
    && (u.grid.None? ==> d.gridSha.None?)
    && (u.grid.Some? ==> d.gridSha == Some(sha(GridDigest.Preimage(u.grid.value))))
    && (d.completeness == Complete <==> d.reasons == [])
    && (forall i :: 0 <= i < |d.reasons| ==> !AllSpace(d.reasons[i]))
    && d.headingLevel != Some(0)
    && (d.parentSection.Some? ==> d.parentSection != d.section)
    && (d.locator.Some? || (d.unavailable.Some? && !AllSpace(d.unavailable.value)))
    && (u.locator.Document? || SameLocator(d.locator, u.locator))
    && Rendered.Mapped(d.spans, markdown)
    && (u.grid.Some? <==> d.tableId.Some?) && (d.tableId.Some? ==> d.tableId.value == u.key)
    && (u.grid.Some? ==> Tiles(u.grid.value) && WidthsOk(u.grid.value))
    && (forall i :: 0 <= i < |d.headers| ==> Anchored(d.headers[i], u.grid))
  }

  ghost predicate Anchored(h: HeaderCell, g: Option<Grid>) {
    && (h.role == "column_header" || h.role == "row_header")
    && g.Some?
    && exists i :: 0 <= i < |g.value.cells| && g.value.cells[i].row == h.row && g.value.cells[i].column == h.column
  }

  /** The running end of the previous span decides order and disjointness. */
  method CheckSpans(spans: seq<Rendered.Span>, markdown: seq<Byte>) returns (ok: bool)
    ensures ok <==> Rendered.Mapped(spans, markdown)
  {
    var priorEnd := 0;
    for n := 0 to |spans|
      invariant forall i :: 0 <= i < n ==> spans[i].start < spans[i].end <= priorEnd <= |markdown|
      invariant forall i, j :: 0 <= i < j < n ==> spans[i].end <= spans[j].start
      invariant n > 0 ==> priorEnd == spans[n - 1].end
      invariant n == 0 ==> priorEnd == 0
      invariant Rendered.Bounded(spans[..n], markdown)
    {
      var span := spans[n];
      if span.start >= span.end || span.start < priorEnd || span.end > |markdown|
         || !Rendered.Boundary(markdown, span.start) || !Rendered.Boundary(markdown, span.end)
      {
        return false;
      }
      priorEnd := span.end;
      assert spans[..n + 1] == spans[..n] + [span];
    }
    assert spans[..|spans|] == spans;
    ok := true;
  }

  method Blank(s: string) returns (blank: bool)
    ensures blank <==> AllSpace(s)
  {
    Text.TrimLeavesNothing(s);
    blank := Text.Trim(s) == "";
  }

  /** table_grid_digest of the native grid, if there is one. */
  method GridSha(g: Option<Grid>, sha: Hash) returns (digest: Option<string>)
    ensures g.None? ==> digest.None?
    ensures g.Some? ==> digest == Some(sha(GridDigest.Preimage(g.value)))
  {
    if g.None? { return None; }
    var fed := GridDigest.DigestInput(g.value);
    digest := Some(sha(fed));
  }

  /** The first condition of the unit loop. */
  method CheckNames(d: Identity, u: Unit, ordinal: nat, sha: Hash) returns (ok: bool)
    ensures ok <==>
            && d.unitId == u.key && u.key != "" && d.ordinal == ordinal && u.ordinal == ordinal && d.kind == u.kind
            && d.textSha == sha(u.text)
            && (u.grid.None? ==> d.gridSha.None?)
            && (u.grid.Some? ==> d.gridSha == Some(sha(GridDigest.Preimage(u.grid.value))))
            && (d.completeness == Complete <==> d.reasons == [])
            && (forall i :: 0 <= i < |d.reasons| ==> !AllSpace(d.reasons[i]))
            && d.headingLevel != Some(0)
            && (d.parentSection.Some? ==> d.parentSection != d.section)
  {
    var gridSha := GridSha(u.grid, sha);
    if d.unitId != u.key || u.key == "" || d.ordinal != ordinal || u.ordinal != ordinal || d.kind != u.kind
       || d.textSha != sha(u.text) || d.gridSha != gridSha || (d.completeness == Complete) != (d.reasons == [])
    {
      return false;
    }
    for n := 0 to |d.reasons|
      invariant forall i :: 0 <= i < n ==> !AllSpace(d.reasons[i])
    {
      var blank := Blank(d.reasons[n]);
      if blank { return false; }
    }
    ok := d.headingLevel != Some(0) && !(d.parentSection.Some? && d.parentSection == d.section);
  }

  method CheckHeaders(headers: seq<HeaderCell>, grid: Option<Grid>) returns (ok: bool)
    ensures ok <==> forall i :: 0 <= i < |headers| ==> Anchored(headers[i], grid)
  {
    for n := 0 to |headers|
      invariant forall i :: 0 <= i < n ==> Anchored(headers[i], grid)
    {
      var h := headers[n];
      if (h.role != "column_header" && h.role != "row_header") || grid.None?
         || !(exists c :: c in grid.value.cells && c.row == h.row && c.column == h.column)
      {
        return false;
      }
      var cell :| cell in grid.value.cells && cell.row == h.row && cell.column == h.column;
      assert exists i :: 0 <= i < |grid.value.cells| && grid.value.cells[i] == cell;
    }
    ok := true;
  }

  method CheckIdentity(d: Identity, u: Unit, ordinal: nat, markdown: seq<Byte>, sha: Hash)
    returns (r: Result<(), Failure>)
    ensures r.Ok? <==> IdentityOk(d, u, ordinal, markdown, sha)
  {
    var named := CheckNames(d, u, ordinal, sha);
    if !named { return Err(InvalidIdentity); }
    if d.locator.None? {
      if d.unavailable.None? { return Err(NoLocation); }
      var blank := Blank(d.unavailable.value);
      if blank { return Err(NoLocation); }
    }
    if !u.locator.Document? && !SameLocator(d.locator, u.locator) { return Err(LocatorDiffers); }
    var mapped := CheckSpans(d.spans, markdown);
    if !mapped { return Err(InvalidSpan); }
    if u.grid.Some? != d.tableId.Some? || (d.tableId.Some? && d.tableId.value != u.key) { return Err(TableDiffers); }
    if u.grid.Some? {
      var valid := ValidateTableGrid(u.grid.value);
      if valid.Err? { return Err(InvalidGrid(valid.error)); }
    }
    var anchored := CheckHeaders(d.headers, u.grid);
    if !anchored { return Err(HeaderUnanchored); }
    r := Ok(());
  }

  // ---------- every unit ----------

  ghost predicate Distinct(s: seq<string>) { forall i, j :: 0 <= i < j < |s| ==> s[i] != s[j] }

  function Ids(units: seq<Identity>): (s: seq<string>)
    ensures |s| == |units| && forall i :: 0 <= i < |s| ==> s[i] == units[i].unitId
  {
    if units == [] then [] else Ids(units[..|units| - 1]) + [units[|units| - 1].unitId]
  }

  ghost predicate UnitPasses(c: Contract, units: seq<Unit>, i: nat, markdown: seq<Byte>, sha: Hash)
    requires i < |c.units| == |units|
  {
    IdentityOk(c.units[i], units[i], i, markdown, sha)
  }

  ghost predicate UnitsOk(c: Contract, units: seq<Unit>, markdown: seq<Byte>, sha: Hash) {
    && |c.units| == |units|
    && (forall i: nat {:trigger UnitPasses(c, units, i, markdown, sha)} ::
          i < |units| ==> UnitPasses(c, units, i, markdown, sha))
    && Distinct(Ids(c.units))
  }

  /** One of the first `n` units has the key. */
  ghost predicate Named(units: seq<Identity>, n: nat, key: string)
    requires n <= |units|
  {
    exists i :: 0 <= i < n && units[i].unitId == key
  }

  /** The first `n` units pass and have distinct keys. */
  ghost predicate Passed(c: Contract, units: seq<Unit>, n: nat, markdown: seq<Byte>, sha: Hash)
    requires n <= |c.units| == |units|
  {
    && (forall i: nat {:trigger UnitPasses(c, units, i, markdown, sha)} ::
          i < n ==> UnitPasses(c, units, i, markdown, sha))
    && (forall i, j :: 0 <= i < j < n ==> c.units[i].unitId != c.units[j].unitId)
  }

  lemma PassedNext(c: Contract, units: seq<Unit>, n: nat, markdown: seq<Byte>, sha: Hash)
    requires n < |c.units| == |units| && Passed(c, units, n, markdown, sha)
    ensures Passed(c, units, n + 1, markdown, sha) <==>
            UnitPasses(c, units, n, markdown, sha) && !Named(c.units, n, c.units[n].unitId)
  {
  }

  lemma PassedAll(c: Contract, units: seq<Unit>, markdown: seq<Byte>, sha: Hash)
    requires |c.units| == |units|
    ensures UnitsOk(c, units, markdown, sha) <==> Passed(c, units, |units|, markdown, sha)
  {
  }

  lemma PassedPrefix(c: Contract, units: seq<Unit>, n: nat, markdown: seq<Byte>, sha: Hash)
    requires n <= |c.units| == |units| && Passed(c, units, |units|, markdown, sha)
    ensures Passed(c, units, n, markdown, sha)
  {
  }

  /** One turn of the unit loop. */
  method CheckUnit(c: Contract, units: seq<Unit>, n: nat, identities: set<string>, markdown: seq<Byte>, sha: Hash)
    returns (r: Result<(), Failure>)
    requires n < |c.units| == |units| && Passed(c, units, n, markdown, sha)
    requires forall k :: k in identities <==> Named(c.units, n, k)
    ensures r.Ok? <==> Passed(c, units, n + 1, markdown, sha)
    ensures r.Ok? ==> c.units[n].unitId == units[n].key
  {
    PassedNext(c, units, n, markdown, sha);
    if units[n].key in identities { return Err(InvalidIdentity); }
    r := CheckIdentity(c.units[n], units[n], n, markdown, sha);
    assert r.Ok? <==> UnitPasses(c, units, n, markdown, sha);
  }

  method CheckUnits(c: Contract, units: seq<Unit>, markdown: seq<Byte>, sha: Hash) returns (r: Result<(), Failure>)
    requires |c.units| == |units|
    ensures r.Ok? <==> UnitsOk(c, units, markdown, sha)
  {
    PassedAll(c, units, markdown, sha);
    var identities: set<string> := {};
    for n := 0 to |units|
      invariant Passed(c, units, n, markdown, sha)
      invariant forall k :: k in identities <==> Named(c.units, n, k)
    {
      r := CheckUnit(c, units, n, identities, markdown, sha);
      if r.Err? {
        if Passed(c, units, |units|, markdown, sha) { PassedPrefix(c, units, n + 1, markdown, sha); }
        return;
      }
      identities := identities + {units[n].key};
    }
    r := Ok(());
  }
}
