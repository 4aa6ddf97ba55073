/** The byte framing that table_grid_digest hashes, and its unique decodability. */
module GridDigest {
  import opened Bytes
  import opened Collections
  import opened Wrappers
  import opened TableGrid

  // ---------- sorting by anchor ----------

  predicate Before(a: Cell, b: Cell) { a.row < b.row || (a.row == b.row && a.column < b.column) }
  predicate SameAnchor(a: Cell, b: Cell) { a.row == b.row && a.column == b.column }

  /** Insertion behind every cell of the same or an earlier anchor. */
  function Insert(cells: seq<Cell>, c: Cell): seq<Cell> {
    if cells == [] then [c]
    else
      var n := |cells| - 1;
      if Before(c, cells[n]) then Insert(cells[..n], c) + [cells[n]] else cells + [c]
  }

  /** sort_by_key on (row, column), stable. */
  function SortCells(cells: seq<Cell>): seq<Cell> {
    if cells == [] then [] else Insert(SortCells(cells[..|cells| - 1]), cells[|cells| - 1])
  }

  ghost predicate DistinctAnchors(cells: seq<Cell>) {
    forall i, j :: 0 <= i < j < |cells| ==> !SameAnchor(cells[i], cells[j])
  }

  ghost predicate Increasing(cells: seq<Cell>) {
    forall i, j :: 0 <= i < j < |cells| ==> Before(cells[i], cells[j])
  }

  lemma {:induction false} InsertPermutes(cells: seq<Cell>, c: Cell)
    ensures multiset(Insert(cells, c)) == multiset(cells) + multiset{c}
  {
    if cells != [] {
      var n := |cells| - 1;
      assert cells == cells[..n] + [cells[n]];
      if Before(c, cells[n]) { InsertPermutes(cells[..n], c); }
    }
  }

  lemma {:induction false} InsertOrders(cells: seq<Cell>, c: Cell)
    requires Increasing(cells) && forall i :: 0 <= i < |cells| ==> !SameAnchor(cells[i], c)
    ensures Increasing(Insert(cells, c))
  {
    if cells != [] {
      var n := |cells| - 1;
      if Before(c, cells[n]) {
        InsertOrders(cells[..n], c);
        InsertPermutes(cells[..n], c);
        var s := Insert(cells[..n], c);
        forall i | 0 <= i < |s| ensures Before(s[i], cells[n]) {
          assert s[i] in multiset(s);
          assert s[i] == c || s[i] in cells[..n];
        }
      }
    }
  }

  lemma {:induction false} SortKeeps(cells: seq<Cell>)
    ensures multiset(SortCells(cells)) == multiset(cells)
    ensures DistinctAnchors(cells) ==> Increasing(SortCells(cells))
  {
    if cells != [] {
      var n := |cells| - 1;
      assert cells == cells[..n] + [cells[n]];
      SortKeeps(cells[..n]);
      InsertPermutes(SortCells(cells[..n]), cells[n]);
      if DistinctAnchors(cells) {
        forall i | 0 <= i < |SortCells(cells[..n])| ensures !SameAnchor(SortCells(cells[..n])[i], cells[n]) {
          assert SortCells(cells[..n])[i] in multiset(SortCells(cells[..n]));
          assert SortCells(cells[..n])[i] in cells[..n];
        }
        InsertOrders(SortCells(cells[..n]), cells[n]);
      }
    }
  }

  ghost function CellSet(cells: seq<Cell>): set<Cell> { set c | c in cells }

  lemma SortedSet(cells: seq<Cell>)
    ensures CellSet(SortCells(cells)) == CellSet(cells) && |SortCells(cells)| == |cells|
  {
    SortKeeps(cells);
    assert forall c :: c in SortCells(cells) <==> c in multiset(SortCells(cells));
    assert forall c :: c in cells <==> c in multiset(cells);
    assert |multiset(SortCells(cells))| == |multiset(cells)|;
  }

  lemma NonEmptySet(a: seq<Cell>)
    ensures CellSet(a) == {} <==> a == []
  {
    if a != [] { assert a[0] in CellSet(a); }
  }

  lemma LastAgrees(a: seq<Cell>, b: seq<Cell>)
    requires Increasing(a) && Increasing(b) && CellSet(a) == CellSet(b) && a != [] && b != []
    ensures a[|a| - 1] == b[|b| - 1]
  {
    var m, n := |a| - 1, |b| - 1;
    assert a[m] in CellSet(b) && b[n] in CellSet(a);
    var i :| 0 <= i <= n && b[i] == a[m];
    var j :| 0 <= j <= m && a[j] == b[n];
    assert i == n;
  }

  /** A set of cells has one increasing enumeration. */
  lemma {:induction false} IncreasingIsUnique(a: seq<Cell>, b: seq<Cell>)
    requires Increasing(a) && Increasing(b) && CellSet(a) == CellSet(b)
    ensures a == b
  {
    if a == [] || b == [] {
      NonEmptySet(a);
      NonEmptySet(b);
    } else {
      var m, n := |a| - 1, |b| - 1;
      LastAgrees(a, b);
      LastRemoved(a);
      LastRemoved(b);
      IncreasingIsUnique(a[..m], b[..n]);
      assert a == a[..m] + [a[m]] && b == b[..n] + [b[n]];
    }
  }

  lemma LastRemoved(a: seq<Cell>)
    requires Increasing(a) && a != []
    ensures CellSet(a[..|a| - 1]) == CellSet(a) - {a[|a| - 1]}
  {
    var m := |a| - 1;
    forall c | c in CellSet(a) - {a[m]} ensures c in CellSet(a[..m]) {
      var i :| 0 <= i <= m && a[i] == c;
      assert a[..m][i] == c;
    }
    assert forall i :: 0 <= i < m ==> Before(a[i], a[m]);
  }

  datatype ProtoGrid = ProtoGrid(rowCount: U32, columnCount: U32, cells: seq<Cell>, widths: seq<Double>)

  /** The received grid as it stands: no widths on the wire are no widths. */
  function Received(proto: ProtoGrid): Grid {
    Grid(proto.rowCount, proto.columnCount, proto.cells, if proto.widths == [] then None else Some(proto.widths))
  }

  /** from_proto_grid: the decoded grid holds the received cells in the order of
      their anchors, and is accepted exactly when the received grid is valid. */
  method FromProtoGrid(proto: ProtoGrid) returns (r: Verdict, grid: Grid)
    ensures r.Ok? <==> Tiles(Received(proto)) && WidthsOk(Received(proto))
    ensures grid == Received(proto).(cells := grid.cells) && multiset(grid.cells) == multiset(proto.cells)
    ensures grid.rowCount == proto.rowCount && grid.columnCount == proto.columnCount
    ensures grid.widths == if proto.widths == [] then None else Some(proto.widths)
    ensures r.Ok? ==> Increasing(grid.cells)
  {
    var widths := if proto.widths == [] then None else Some(proto.widths);
    grid := Grid(proto.rowCount, proto.columnCount, SortCells(proto.cells), widths);
    SortKeeps(proto.cells);
    TilingIgnoresOrder(Received(proto), grid);
    r := ValidateTableGrid(grid);
    if r.Ok? { ValidIsDistinct(Received(proto)); }
  }

  // ---------- the framing ----------

  /** "docreader-grid-v2" and a zero byte. */
  const TAG: seq<Byte> := [100, 111, 99, 114, 101, 97, 100, 101, 114, 45, 103, 114, 105, 100, 45, 118, 50, 0]

  /** The tag is the name of the framing and a zero byte. */
  lemma TagIsText()
    ensures |TAG| == |"docreader-grid-v2"| + 1 && TAG[|TAG| - 1] == 0
    ensures forall i :: 0 <= i < |TAG| - 1 ==> TAG[i] == "docreader-grid-v2"[i] as int
  {
  }

  function CellBytes(c: Cell): seq<Byte> {
    BigEndian(c.row, 4) + (BigEndian(c.column, 4) + (BigEndian(c.rowSpan, 4)
    + (BigEndian(c.colSpan, 4) + (BigEndian(|c.text| % 0x1_0000_0000_0000_0000, 8) + c.text))))
  }

  function CellsBytes(cells: seq<Cell>): seq<Byte> {
    if cells == [] then [] else CellBytes(cells[0]) + CellsBytes(cells[1..])
  }

  function WidthsBytes(widths: seq<Double>): seq<Byte> {
    if widths == [] then [] else BigEndian(widths[0], 8) + WidthsBytes(widths[1..])
  }

  function WidthList(g: Grid): seq<Double> { if g.widths.Some? then g.widths.value else [] }

  /** The bytes fed to the hasher, in order. */
  function Preimage(g: Grid): seq<Byte> {
    TAG + (BigEndian(g.rowCount, 4) + (BigEndian(g.columnCount, 4) + (BigEndian(|g.cells| % 0x1_0000_0000, 4)
    + (CellsBytes(SortCells(g.cells)) + (BigEndian(|WidthList(g)| % 0x1_0000_0000, 4) + WidthsBytes(WidthList(g)))))))
  }

  /** Four fields of four bytes, one of eight, and the rest. */
  ghost predicate CellFields(b: seq<Byte>, f0: seq<Byte>, f1: seq<Byte>, f2: seq<Byte>, f3: seq<Byte>, f4: seq<Byte>,
                             rest: seq<Byte>)
  {
    && |b| == 24 + |rest| && b[0..4] == f0 && b[4..8] == f1 && b[8..12] == f2 && b[12..16] == f3 && b[16..24] == f4
    && b[24..] == rest
  }

  /** Where the fields of a cell stand. */
  lemma CellLayout(c: Cell)
    requires |c.text| < 0x1_0000_0000_0000_0000
    ensures CellFields(CellBytes(c), BigEndian(c.row, 4), BigEndian(c.column, 4), BigEndian(c.rowSpan, 4),
                       BigEndian(c.colSpan, 4), BigEndian(|c.text|, 8), c.text)
  {
    assert |c.text| % 0x1_0000_0000_0000_0000 == |c.text|;
    FieldsAt(BigEndian(c.row, 4), BigEndian(c.column, 4), BigEndian(c.rowSpan, 4), BigEndian(c.colSpan, 4),
             BigEndian(|c.text|, 8), c.text);
  }

  lemma FieldsAt(f0: seq<Byte>, f1: seq<Byte>, f2: seq<Byte>, f3: seq<Byte>, f4: seq<Byte>, rest: seq<Byte>)
    requires |f0| == |f1| == |f2| == |f3| == 4 && |f4| == 8
    ensures CellFields(f0 + (f1 + (f2 + (f3 + (f4 + rest)))), f0, f1, f2, f3, f4, rest)
  {
  }

  /** A tag of 18 bytes and three fields of four. */
  ghost predicate HeaderFields(b: seq<Byte>, tag: seq<Byte>, f0: seq<Byte>, f1: seq<Byte>, f2: seq<Byte>) {
    |b| >= 30 && b[..18] == tag && b[18..22] == f0 && b[22..26] == f1 && b[26..30] == f2
  }

  /** Where the fields before the cells stand. */
  lemma HeaderLayout(g: Grid)
    requires |g.cells| < 0x1_0000_0000
    ensures HeaderFields(Preimage(g), TAG, BigEndian(g.rowCount, 4), BigEndian(g.columnCount, 4),
                         BigEndian(|g.cells|, 4))
  {
    var widths := WidthList(g);
    assert |g.cells| % 0x1_0000_0000 == |g.cells|;
    HeaderAt(TAG, BigEndian(g.rowCount, 4), BigEndian(g.columnCount, 4), BigEndian(|g.cells|, 4),
             CellsBytes(SortCells(g.cells)) + (BigEndian(|widths| % 0x1_0000_0000, 4) + WidthsBytes(widths)));
  }

  lemma HeaderAt(tag: seq<Byte>, f0: seq<Byte>, f1: seq<Byte>, f2: seq<Byte>, rest: seq<Byte>)
    requires |tag| == 18 && |f0| == |f1| == |f2| == 4
    ensures HeaderFields(tag + (f0 + (f1 + (f2 + rest))), tag, f0, f1, f2)
  {
  }

  /** The updates for one cell. */
  method FeedCell(c: Cell) returns (fed: seq<Byte>)
    ensures fed == CellBytes(c)
  {
    fed := BigEndian(c.row, 4);
    fed := fed + BigEndian(c.column, 4);
    fed := fed + BigEndian(c.rowSpan, 4);
    fed := fed + BigEndian(c.colSpan, 4);
    fed := fed + BigEndian(|c.text| % 0x1_0000_0000_0000_0000, 8);
    fed := fed + c.text;
    Nested(BigEndian(c.row, 4), BigEndian(c.column, 4), BigEndian(c.rowSpan, 4), BigEndian(c.colSpan, 4),
           BigEndian(|c.text| % 0x1_0000_0000_0000_0000, 8), c.text);
  }

  lemma Nested(a: seq<Byte>, b: seq<Byte>, c: seq<Byte>, d: seq<Byte>, e: seq<Byte>, f: seq<Byte>)
    ensures a + b + c + d + e + f == a + (b + (c + (d + (e + f))))
  {
  }

  /** The loop that feeds the sorted cells. */
  method FeedCells(cells: seq<Cell>) returns (fed: seq<Byte>)
    ensures fed == CellsBytes(cells)
  {
    fed := [];
    var i := 0;
    while i < |cells|
      invariant 0 <= i <= |cells|
      invariant fed + CellsBytes(cells[i..]) == CellsBytes(cells)
    {
      var next := FeedCell(cells[i]);
      assert cells[i..][1..] == cells[i + 1..];
      Regroup(fed, next, CellsBytes(cells[i + 1..]));
      fed := fed + next;
      i := i + 1;
    }
  }

  /** The loop that feeds the widths. */
  method FeedWidths(widths: seq<Double>) returns (fed: seq<Byte>)
    ensures fed == WidthsBytes(widths)
  {
    fed := [];
    var i := 0;
    while i < |widths|
      invariant 0 <= i <= |widths|
      invariant fed + WidthsBytes(widths[i..]) == WidthsBytes(widths)
    {
      var next := BigEndian(widths[i], 8);
      assert widths[i..][1..] == widths[i + 1..];
      Regroup(fed, next, WidthsBytes(widths[i + 1..]));
      fed := fed + next;
      i := i + 1;
    }
  }

  /** table_grid_digest, up to the hash function. */
  method DigestInput(g: Grid) returns (fed: seq<Byte>)
    ensures fed == Preimage(g)
  {
    var cells := FeedCells(SortCells(g.cells));
    var widths := FeedWidths(WidthList(g));
    fed := TAG + (BigEndian(g.rowCount, 4) + (BigEndian(g.columnCount, 4) + (BigEndian(|g.cells| % 0x1_0000_0000, 4)
           + (cells + (BigEndian(|WidthList(g)| % 0x1_0000_0000, 4) + widths)))));
  }

  // ---------- unique decodability ----------

  lemma Widths256()
    ensures Pow256(4) == 0x1_0000_0000 && Pow256(8) == 0x1_0000_0000_0000_0000
  {}

  /** What fits the length fields of the framing. */
  ghost predicate Representable(g: Grid) {
    |g.cells| < 0x1_0000_0000 && forall i :: 0 <= i < |g.cells| ==> |g.cells[i].text| < 0x1_0000_0000_0000_0000
  }

  lemma CellDecodes(c: Cell, d: Cell, x: seq<Byte>, y: seq<Byte>)
    requires CellBytes(c) + x == CellBytes(d) + y
    requires |c.text| < 0x1_0000_0000_0000_0000 && |d.text| < 0x1_0000_0000_0000_0000
    ensures c == d && x == y
  {
    Widths256();
    var c4, d4 := c.text + x, d.text + y;
    var c3, d3 := BigEndian(|c.text|, 8) + c4, BigEndian(|d.text|, 8) + d4;
    var c2, d2 := BigEndian(c.colSpan, 4) + c3, BigEndian(d.colSpan, 4) + d3;
    var c1, d1 := BigEndian(c.rowSpan, 4) + c2, BigEndian(d.rowSpan, 4) + d2;
    var c0, d0 := BigEndian(c.column, 4) + c1, BigEndian(d.column, 4) + d1;
    CellRegroup(c, x);
    CellRegroup(d, y);
    FieldDecodes(c.row, d.row, 4, c0, d0);
    FieldDecodes(c.column, d.column, 4, c1, d1);
    FieldDecodes(c.rowSpan, d.rowSpan, 4, c2, d2);
    FieldDecodes(c.colSpan, d.colSpan, 4, c3, d3);
    FieldDecodes(|c.text|, |d.text|, 8, c4, d4);
    assert c4[..|c.text|] == c.text && d4[..|d.text|] == d.text;
    assert c4[|c.text|..] == x && d4[|d.text|..] == y;
  }

  lemma CellRegroup(c: Cell, x: seq<Byte>)
    requires |c.text| < 0x1_0000_0000_0000_0000
    ensures CellBytes(c) + x == BigEndian(c.row, 4) + (BigEndian(c.column, 4) + (BigEndian(c.rowSpan, 4)
            + (BigEndian(c.colSpan, 4) + (BigEndian(|c.text|, 8) + (c.text + x)))))
  {
    assert |c.text| % 0x1_0000_0000_0000_0000 == |c.text|;
    var t4 := BigEndian(|c.text|, 8) + c.text;
    var t3 := BigEndian(c.colSpan, 4) + t4;
    var t2 := BigEndian(c.rowSpan, 4) + t3;
    var t1 := BigEndian(c.column, 4) + t2;
    Regroup(BigEndian(|c.text|, 8), c.text, x);
    Regroup(BigEndian(c.colSpan, 4), t4, x);
    Regroup(BigEndian(c.rowSpan, 4), t3, x);
    Regroup(BigEndian(c.column, 4), t2, x);
    Regroup(BigEndian(c.row, 4), t1, x);
  }

  lemma {:induction false} CellsDecode(a: seq<Cell>, b: seq<Cell>, x: seq<Byte>, y: seq<Byte>)
    requires |a| == |b| && CellsBytes(a) + x == CellsBytes(b) + y
    requires forall i :: 0 <= i < |a| ==> |a[i].text| < 0x1_0000_0000_0000_0000
    requires forall i :: 0 <= i < |b| ==> |b[i].text| < 0x1_0000_0000_0000_0000
    ensures a == b && x == y
  {
    if a == [] {
      assert CellsBytes(a) + x == x && CellsBytes(b) + y == y;
    } else {
      Regroup(CellBytes(a[0]), CellsBytes(a[1..]), x);
      Regroup(CellBytes(b[0]), CellsBytes(b[1..]), y);
      CellDecodes(a[0], b[0], CellsBytes(a[1..]) + x, CellsBytes(b[1..]) + y);
      CellsDecode(a[1..], b[1..], x, y);
      assert a == [a[0]] + a[1..] && b == [b[0]] + b[1..];
    }
  }

  lemma {:induction false} WidthsDecode(a: seq<Double>, b: seq<Double>)
    requires |a| == |b| && WidthsBytes(a) == WidthsBytes(b)
    ensures a == b
  {
    if a != [] {
      Widths256();
      FieldDecodes(a[0], b[0], 8, WidthsBytes(a[1..]), WidthsBytes(b[1..]));
      WidthsDecode(a[1..], b[1..]);
      assert a == [a[0]] + a[1..] && b == [b[0]] + b[1..];
    }
  }

  /** What the digest identifies: the size, the set of cells with spans and texts,
      and the widths, where no widths and an empty list are one. */
  ghost predicate SameTable(g: Grid, h: Grid) {
    g.rowCount == h.rowCount && g.columnCount == h.columnCount && CellSet(g.cells) == CellSet(h.cells)
    && WidthList(g) == WidthList(h)
  }

  /** Two valid grids have the same preimage exactly when they are the same table. */
  lemma PreimageIsExact(g: Grid, h: Grid)
    requires Tiles(g) && WidthsOk(g) && Representable(g)
    requires Tiles(h) && WidthsOk(h) && Representable(h)
    ensures Preimage(g) == Preimage(h) <==> SameTable(g, h)
  {
    ValidIsDistinct(g); ValidIsDistinct(h);
    SortKeeps(g.cells); SortKeeps(h.cells);
    SortedSet(g.cells); SortedSet(h.cells);
    if Preimage(g) == Preimage(h) {
      PreimageDecodes(g, h);
    }
    if SameTable(g, h) {
      IncreasingIsUnique(SortCells(g.cells), SortCells(h.cells));
    }
  }

  lemma ValidIsDistinct(g: Grid)
    requires Tiles(g)
    ensures DistinctAnchors(g.cells)
  {
    AnchorsOfTiling(g, 0, 0);
  }

  function AfterCells(g: Grid): seq<Byte> {
    BigEndian(|WidthList(g)| % 0x1_0000_0000, 4) + WidthsBytes(WidthList(g))
  }

  function AfterSize(g: Grid): seq<Byte> {
    BigEndian(|g.cells| % 0x1_0000_0000, 4) + (CellsBytes(SortCells(g.cells)) + AfterCells(g))
  }

  lemma PreimageDecodes(g: Grid, h: Grid)
    requires Preimage(g) == Preimage(h) && Representable(g) && Representable(h)
    requires |WidthList(g)| < 0x1_0000_0000 && |WidthList(h)| < 0x1_0000_0000
    ensures g.rowCount == h.rowCount && g.columnCount == h.columnCount
    ensures SortCells(g.cells) == SortCells(h.cells) && WidthList(g) == WidthList(h)
  {
    SizeDecodes(g, h);
    RestDecodes(g, h);
  }

  lemma Framed(g: Grid)
    requires Representable(g) && |WidthList(g)| < 0x1_0000_0000
    ensures |SortCells(g.cells)| == |g.cells|
    ensures AfterSize(g) == BigEndian(|SortCells(g.cells)|, 4) + (CellsBytes(SortCells(g.cells)) + AfterCells(g))
    ensures AfterCells(g) == BigEndian(|WidthList(g)|, 4) + WidthsBytes(WidthList(g))
  {
    SortedSet(g.cells);
    var m, n := |g.cells|, |WidthList(g)|;
    assert m % 0x1_0000_0000 == m && n % 0x1_0000_0000 == n;
  }

  lemma RestDecodes(g: Grid, h: Grid)
    requires AfterSize(g) == AfterSize(h) && Representable(g) && Representable(h)
    requires |WidthList(g)| < 0x1_0000_0000 && |WidthList(h)| < 0x1_0000_0000
    ensures SortCells(g.cells) == SortCells(h.cells) && WidthList(g) == WidthList(h)
  {
    SortedTexts(g); SortedTexts(h);
    var a, b, x, y := SortCells(g.cells), SortCells(h.cells), AfterCells(g), AfterCells(h);
    Framed(g); Framed(h);
    BodyDecodes(a, b, x, y);
    TailDecodes(WidthList(g), WidthList(h));
  }

  lemma BodyDecodes(a: seq<Cell>, b: seq<Cell>, x: seq<Byte>, y: seq<Byte>)
    requires |a| < 0x1_0000_0000 && |b| < 0x1_0000_0000
    requires BigEndian(|a|, 4) + (CellsBytes(a) + x) == BigEndian(|b|, 4) + (CellsBytes(b) + y)
    requires forall i :: 0 <= i < |a| ==> |a[i].text| < 0x1_0000_0000_0000_0000
    requires forall i :: 0 <= i < |b| ==> |b[i].text| < 0x1_0000_0000_0000_0000
    ensures a == b && x == y
  {
    Widths256();
    FieldDecodes(|a|, |b|, 4, CellsBytes(a) + x, CellsBytes(b) + y);
    CellsDecode(a, b, x, y);
  }

  lemma TailDecodes(a: seq<Double>, b: seq<Double>)
    requires |a| < 0x1_0000_0000 && |b| < 0x1_0000_0000
    requires BigEndian(|a|, 4) + WidthsBytes(a) == BigEndian(|b|, 4) + WidthsBytes(b)
    ensures a == b
  {
    Widths256();
    FieldDecodes(|a|, |b|, 4, WidthsBytes(a), WidthsBytes(b));
    WidthsDecode(a, b);
  }

  lemma SizeDecodes(g: Grid, h: Grid)
    requires Preimage(g) == Preimage(h)
    ensures g.rowCount == h.rowCount && g.columnCount == h.columnCount && AfterSize(g) == AfterSize(h)
  {
    Widths256();
    var g0, h0 := BigEndian(g.columnCount, 4) + AfterSize(g), BigEndian(h.columnCount, 4) + AfterSize(h);
    var x, y := BigEndian(g.rowCount, 4) + g0, BigEndian(h.rowCount, 4) + h0;
    Untagged(g, x); Untagged(h, y);
    FieldDecodes(g.rowCount, h.rowCount, 4, g0, h0);
    FieldDecodes(g.columnCount, h.columnCount, 4, AfterSize(g), AfterSize(h));
  }

  lemma Untagged(g: Grid, x: seq<Byte>)
    requires Preimage(g) == TAG + x
    ensures Preimage(g)[|TAG|..] == x
  {}

  lemma SortedTexts(g: Grid)
    requires Representable(g)
    ensures forall i :: 0 <= i < |SortCells(g.cells)| ==> |SortCells(g.cells)[i].text| < 0x1_0000_0000_0000_0000
  {
    SortedSet(g.cells);
    var s := SortCells(g.cells);
    forall i | 0 <= i < |s| ensures |s[i].text| < 0x1_0000_0000_0000_0000 {
      assert s[i] in CellSet(s);
      assert s[i] in g.cells;
    }
  }
}
