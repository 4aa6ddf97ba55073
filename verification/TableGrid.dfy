/** Table grids: the imperative tiling checker against a declarative exact cover. */
module TableGrid {
  import opened Bytes
  import opened Wrappers

  type U32 = x: int | 0 <= x < 0x1_0000_0000

  /** A width is the bit pattern of an IEEE 754 double. */
  type Double = x: int | 0 <= x < 0x1_0000_0000_0000_0000

  datatype Cell = Cell(row: U32, column: U32, rowSpan: U32, colSpan: U32, text: seq<Byte>)
  datatype Grid = Grid(rowCount: U32, columnCount: U32, cells: seq<Cell>, widths: Option<seq<Double>>)

  datatype GridError =
    | EmptyGrid | InvalidCell | OverlappingSpans | CoveredSlot | OverflowingGrid | DoesNotTile | InvalidWidths
  type Verdict = Result<(), GridError>

  type Slot = (int, int)

  // ---------- the declarative reading ----------

  function SignOf(bits: Double): nat { bits / 0x8000_0000_0000_0000 }
  function ExponentOf(bits: Double): nat { bits / 0x10_0000_0000_0000 % 0x800 }
  function FractionOf(bits: Double): nat { bits % 0x10_0000_0000_0000 }

  /** A double is its sign, its exponent and its fraction (IEEE 754, binary64). */
  lemma DoubleFields(sign: nat, exponent: nat, fraction: nat)
    requires sign < 2 && exponent < 0x800 && fraction < 0x10_0000_0000_0000
    ensures var bits := sign * 0x8000_0000_0000_0000 + exponent * 0x10_0000_0000_0000 + fraction;
            && bits < 0x1_0000_0000_0000_0000
            && SignOf(bits) == sign && ExponentOf(bits) == exponent && FractionOf(bits) == fraction
  {
    var bits := sign * 0x8000_0000_0000_0000 + exponent * 0x10_0000_0000_0000 + fraction;
    assert bits / 0x10_0000_0000_0000 == sign * 0x800 + exponent;
  }

  /** Finite and positive: no sign, not an infinity or NaN, not zero. */
  ghost predicate PositiveWidth(bits: Double) {
    SignOf(bits) == 0 && ExponentOf(bits) != 0x7FF && (ExponentOf(bits) != 0 || FractionOf(bits) != 0)
  }

  predicate PositiveFinite(bits: Double) { 0 < bits < 0x7FF0_0000_0000_0000 }

  lemma PositiveFiniteIsWidth(bits: Double)
    ensures PositiveFinite(bits) <==> PositiveWidth(bits)
  {
    var top := bits / 0x10_0000_0000_0000;
    assert bits == 0x10_0000_0000_0000 * top + FractionOf(bits);
    assert SignOf(bits) == top / 0x800;
  }

  ghost predicate WidthsOk(g: Grid) {
    g.widths.Some? ==>
      |g.widths.value| == g.columnCount && forall i :: 0 <= i < |g.widths.value| ==> PositiveWidth(g.widths.value[i])
  }

  ghost predicate CellFits(g: Grid, c: Cell) {
    c.rowSpan > 0 && c.colSpan > 0
    && c.row as int + c.rowSpan <= g.rowCount && c.column as int + c.colSpan <= g.columnCount
  }

  predicate Covers(c: Cell, s: Slot) {
    c.row <= s.0 < c.row as int + c.rowSpan && c.column <= s.1 < c.column as int + c.colSpan
  }

  predicate InGrid(g: Grid, s: Slot) { 0 <= s.0 < g.rowCount && 0 <= s.1 < g.columnCount }

  /** How many cells cover the slot. */
  function CoverCount(cells: seq<Cell>, s: Slot): nat {
    if cells == [] then 0
    else CoverCount(cells[..|cells| - 1], s) + (if Covers(cells[|cells| - 1], s) then 1 else 0)
  }

  ghost predicate AllFit(g: Grid) { forall i :: 0 <= i < |g.cells| ==> CellFits(g, g.cells[i]) }

  /** Every cell is a proper rectangle inside the grid, and every slot of the
      grid lies in exactly one of them. */
  ghost predicate Tiles(g: Grid) {
    && g.rowCount > 0 && g.columnCount > 0
    && AllFit(g)
    && (forall s: Slot :: InGrid(g, s) ==> CoverCount(g.cells, s) == 1)
  }

  // ---------- counting slots ----------

  function Rectangle(r0: int, r1: int, c0: int, c1: int): set<Slot> {
    set r, c | r0 <= r < r1 && c0 <= c < c1 :: (r, c)
  }

  lemma {:induction false} RowSize(r: int, c0: int, c1: int)
    requires c0 <= c1
    ensures |Rectangle(r, r + 1, c0, c1)| == c1 - c0
    decreases c1 - c0
  {
    if c0 == c1 {
      assert Rectangle(r, r + 1, c0, c1) == {};
    } else {
      RowSize(r, c0, c1 - 1);
      assert Rectangle(r, r + 1, c0, c1) == Rectangle(r, r + 1, c0, c1 - 1) + {(r, c1 - 1)};
    }
  }

  lemma {:induction false} RectangleSize(r0: int, r1: int, c0: int, c1: int)
    requires r0 <= r1 && c0 <= c1
    ensures |Rectangle(r0, r1, c0, c1)| == (r1 - r0) * (c1 - c0)
    decreases r1 - r0
  {
    if r0 == r1 {
      assert Rectangle(r0, r1, c0, c1) == {};
    } else {
      RectangleSize(r0, r1 - 1, c0, c1);
      RowSize(r1 - 1, c0, c1);
      assert Rectangle(r0, r1, c0, c1) == Rectangle(r0, r1 - 1, c0, c1) + Rectangle(r1 - 1, r1, c0, c1);
      assert (r1 - r0) * (c1 - c0) == (r1 - 1 - r0) * (c1 - c0) + (c1 - c0);
    }
  }

  ghost function Slots(g: Grid): set<Slot> { Rectangle(0, g.rowCount, 0, g.columnCount) }

  lemma {:induction false} CountGrows(cells: seq<Cell>, n: nat, s: Slot)
    requires n <= |cells|
    ensures CoverCount(cells[..n], s) <= CoverCount(cells, s)
    decreases |cells|
  {
    if n < |cells| {
      CountGrows(cells[..|cells| - 1], n, s);
      assert cells[..|cells| - 1][..n] == cells[..n];
    } else {
      assert cells[..n] == cells;
    }
  }

  /** A slot in which two cells meet refutes the tiling. */
  lemma MeetingRefutes(g: Grid, n: nat, s: Slot)
    requires n < |g.cells| && CoverCount(g.cells[..n], s) > 0 && Covers(g.cells[n], s)
    ensures !Tiles(g)
  {
    assert g.cells[..n + 1][..n] == g.cells[..n];
    CountGrows(g.cells, n + 1, s);
    assert CellFits(g, g.cells[n]) ==> InGrid(g, s);
  }

  lemma {:induction false} CountedIsCovered(cells: seq<Cell>, s: Slot)
    ensures CoverCount(cells, s) > 0 <==> exists i :: 0 <= i < |cells| && Covers(cells[i], s)
  {
    if cells != [] {
      var rest := cells[..|cells| - 1];
      CountedIsCovered(rest, s);
      if i :| 0 <= i < |cells| && Covers(cells[i], s) && i < |rest| { assert Covers(rest[i], s); }
    }
  }

  /** Once no two cells meet, counting the occupied slots decides the cover. */
  lemma CountDecides(g: Grid, occupied: set<Slot>)
    requires forall s: Slot :: CoverCount(g.cells, s) == if s in occupied then 1 else 0
    requires forall s :: s in occupied ==> InGrid(g, s)
    ensures |occupied| == g.rowCount as int * g.columnCount <==>
            forall s: Slot :: InGrid(g, s) ==> CoverCount(g.cells, s) == 1
  {
    RectangleSize(0, g.rowCount, 0, g.columnCount);
    assert forall s: Slot :: InGrid(g, s) <==> s in Slots(g);
    assert occupied <= Slots(g);
    if |occupied| == g.rowCount as int * g.columnCount { SubsetOfSameSize(occupied, Slots(g)); }
    if forall s: Slot :: InGrid(g, s) ==> CoverCount(g.cells, s) == 1 {
      assert occupied == Slots(g);
    }
  }

  // ---------- the checker ----------

  /** The two inner loops: occupy the slots of one cell. */
  method Occupy(cell: Cell, seen: set<Slot>, before: map<Slot, Slot>) returns (r: Verdict, occupied: map<Slot, Slot>)
    requires forall s :: s in seen && s != (cell.row as int, cell.column as int) ==> s in before
    ensures r.Ok? || r == Err(OverlappingSpans)
    ensures r.Ok? <==> forall s: Slot :: Covers(cell, s) ==> s !in before
    ensures r.Ok? ==> forall s: Slot :: s in occupied <==> s in before || Covers(cell, s)
  {
    occupied := before;
    var rowEnd, columnEnd := cell.row as int + cell.rowSpan, cell.column as int + cell.colSpan;
    var owner: Slot := (cell.row as int, cell.column as int);
    var row: int := cell.row;
    while row < rowEnd
      invariant cell.row <= row <= rowEnd
      invariant forall s: Slot :: s in occupied <==> s in before || (Covers(cell, s) && s.0 < row)
      invariant forall s: Slot :: Covers(cell, s) && s.0 < row ==> s !in before
    {
      var column: int := cell.column;
      while column < columnEnd
        invariant cell.column <= column <= columnEnd
        invariant forall s: Slot :: s in occupied <==> s in before || (Covers(cell, s) && Placed(s, row, column))
        invariant forall s: Slot :: Covers(cell, s) && Placed(s, row, column) ==> s !in before
      {
        var slot: Slot := (row, column);
        var taken := slot in occupied;
        occupied := occupied[slot := owner];
        assert Covers(cell, slot);
        if taken { return Err(OverlappingSpans), occupied; }
        if slot != owner && slot in seen { return Err(CoveredSlot), occupied; }
        column := column + 1;
      }
      row := row + 1;
    }
    r := Ok(());
  }

  predicate Placed(s: Slot, row: int, column: int) { s.0 < row || (s.0 == row && s.1 < column) }

  /** After `n` cells: they fit, none of them meet, and `occupied` is what they cover. */
  ghost predicate Progress(g: Grid, n: nat, seen: set<Slot>, occupied: set<Slot>) {
    && n <= |g.cells|
    && (forall i :: 0 <= i < n ==> CellFits(g, g.cells[i]))
    && (forall s: Slot :: CoverCount(g.cells[..n], s) == if s in occupied then 1 else 0)
    && seen <= occupied
    && (forall s :: s in occupied ==> InGrid(g, s))
  }

  /** The body of the loop over the cells. */
  method PlaceCell(g: Grid, n: nat, seen: set<Slot>, occupied: map<Slot, Slot>)
    returns (r: Verdict, seen': set<Slot>, occupied': map<Slot, Slot>)
    requires n < |g.cells| && Progress(g, n, seen, occupied.Keys)
    ensures r.Ok? ==> Progress(g, n + 1, seen', occupied'.Keys)
    ensures !r.Ok? ==> !Tiles(g) && (r == Err(InvalidCell) || r == Err(OverlappingSpans))
  {
    seen', occupied' := seen, occupied;
    var cell := g.cells[n];
    var anchor: Slot := (cell.row as int, cell.column as int);
    if cell.rowSpan == 0 || cell.colSpan == 0
       || cell.row >= g.rowCount || cell.column >= g.columnCount
       || cell.row as int + cell.rowSpan >= 0x1_0000_0000 || cell.row as int + cell.rowSpan > g.rowCount
       || cell.column as int + cell.colSpan >= 0x1_0000_0000 || cell.column as int + cell.colSpan > g.columnCount
       || anchor in seen
    {
      if CellFits(g, cell) { MeetingRefutes(g, n, anchor); }
      return Err(InvalidCell), seen, occupied;
    }
    seen' := seen + {anchor};
    r, occupied' := Occupy(cell, seen', occupied);
    if !r.Ok? {
      ghost var s: Slot :| Covers(cell, s) && s in occupied;
      MeetingRefutes(g, n, s);
      return;
    }
    assert g.cells[..n + 1][..n] == g.cells[..n];
    assert Covers(cell, anchor);
  }

  /** The checker accepts exactly the grids whose cells tile them and whose widths
      are valid; the covered-slot and overflow errors cannot occur, and the first
      and the last error say exactly what they mean. */
  method ValidateTableGrid(g: Grid) returns (r: Verdict)
    ensures r.Ok? <==> Tiles(g) && WidthsOk(g)
    ensures r != Err(CoveredSlot) && r != Err(OverflowingGrid)
    ensures r == Err(EmptyGrid) <==> g.rowCount == 0 || g.columnCount == 0
    ensures r == Err(InvalidWidths) <==> Tiles(g) && !WidthsOk(g)
  {
    if g.rowCount == 0 || g.columnCount == 0 { return Err(EmptyGrid); }
    var seen: set<Slot> := {};
    var occupied: map<Slot, Slot> := map[];
    for n := 0 to |g.cells|
      invariant Progress(g, n, seen, occupied.Keys)
    {
      r, seen, occupied := PlaceCell(g, n, seen, occupied);
      if !r.Ok? { return; }
    }
    assert g.cells[..|g.cells|] == g.cells;
    ProductFits(g.rowCount, g.columnCount);
    var expected := g.rowCount as int * g.columnCount;
    if expected >= 0x1_0000_0000_0000_0000 { return Err(OverflowingGrid); }
    CountDecides(g, occupied.Keys);
    if |occupied| != expected { return Err(DoesNotTile); }
    if g.widths.Some? {
      var widths := g.widths.value;
      forall i | 0 <= i < |widths| ensures PositiveFinite(widths[i]) <==> PositiveWidth(widths[i]) {
        PositiveFiniteIsWidth(widths[i]);
      }
      if |widths| != g.columnCount || exists i :: 0 <= i < |widths| && !PositiveFinite(widths[i]) {
        return Err(InvalidWidths);
      }
    }
    r := Ok(());
  }

  lemma ProductFits(a: U32, b: U32)
    ensures a as int * b < 0x1_0000_0000_0000_0000
  {
    Monotone(a, 0x1_0000_0000, b);
    Monotone(b, 0x1_0000_0000, 0x1_0000_0000);
  }

  lemma Monotone(a: int, b: int, c: nat)
    requires a <= b
    ensures a * c <= b * c
  {}

  lemma SubsetOfSameSize<T>(a: set<T>, b: set<T>)
    requires a <= b && |a| == |b|
    ensures a == b
  {
    assert |b - a| == |b| - |a|;
  }

  // ---------- consequences ----------

  lemma CountSplits(a: seq<Cell>, b: seq<Cell>, s: Slot)
    ensures CoverCount(a + b, s) == CoverCount(a, s) + CoverCount(b, s)
    decreases |b|
  {
    if b == [] {
      assert a + b == a;
    } else {
      assert (a + b)[..|a + b| - 1] == a + b[..|b| - 1];
      CountSplits(a, b[..|b| - 1], s);
    }
  }

  lemma RemovedAt(a: seq<Cell>, i: nat)
    requires i < |a|
    ensures multiset(a[..i] + a[i + 1..]) == multiset(a) - multiset{a[i]}
  {
    assert a == a[..i] + [a[i]] + a[i + 1..];
  }

  lemma CountRemoved(a: seq<Cell>, i: nat, s: Slot)
    requires i < |a|
    ensures CoverCount(a, s) == CoverCount(a[..i] + a[i + 1..], s) + (if Covers(a[i], s) then 1 else 0)
  {
    assert a == a[..i + 1] + a[i + 1..] && a[..i + 1][..i] == a[..i];
    CountSplits(a[..i + 1], a[i + 1..], s);
    CountSplits(a[..i], a[i + 1..], s);
  }

  lemma {:induction false} CountIgnoresOrder(a: seq<Cell>, b: seq<Cell>, s: Slot)
    requires multiset(a) == multiset(b)
    ensures CoverCount(a, s) == CoverCount(b, s)
    decreases |a|
  {
    if a == [] {
      assert |multiset(b)| == 0;
      assert b == [];
    } else {
      var n := |a| - 1;
      assert a[n] in multiset(a) && a[n] in multiset(b);
      var i :| 0 <= i < |b| && b[i] == a[n];
      RemovedAt(a, n);
      RemovedAt(b, i);
      assert a[..n] + a[n + 1..] == a[..n];
      CountIgnoresOrder(a[..n], b[..i] + b[i + 1..], s);
      CountRemoved(b, i, s);
    }
  }

  /** The verdict does not depend on the order of the cells. */
  lemma TilingIgnoresOrder(g: Grid, h: Grid)
    requires g.rowCount == h.rowCount && g.columnCount == h.columnCount && multiset(g.cells) == multiset(h.cells)
    ensures Tiles(g) <==> Tiles(h)
  {
    forall s: Slot ensures CoverCount(g.cells, s) == CoverCount(h.cells, s) { CountIgnoresOrder(g.cells, h.cells, s); }
    SameFit(g, h);
    SameFit(h, g);
  }

  lemma SameFit(g: Grid, h: Grid)
    requires g.rowCount == h.rowCount && g.columnCount == h.columnCount && multiset(g.cells) == multiset(h.cells)
    ensures AllFit(g) ==> AllFit(h)
  {
    if AllFit(g) {
      forall i | 0 <= i < |h.cells| ensures CellFits(h, h.cells[i]) {
        assert h.cells[i] in multiset(g.cells);
      }
    }
  }

  predicate IsAnchor(g: Grid, row: U32, column: U32) {
    exists i :: 0 <= i < |g.cells| && g.cells[i].row == row && g.cells[i].column == column
      && !(exists j :: 0 <= j < |g.cells|
             && (g.cells[j].row, g.cells[j].column) != (row, column) && Covers(g.cells[j], (row as int, column as int)))
  }

  /** On an accepted grid grid_cell_is_anchor says just that some cell starts there,
      and no two cells start in one slot. */
  lemma AnchorsOfTiling(g: Grid, row: U32, column: U32)
    requires Tiles(g)
    ensures IsAnchor(g, row, column) <==>
            exists i :: 0 <= i < |g.cells| && g.cells[i].row == row && g.cells[i].column == column
    ensures forall i, j | 0 <= i < j < |g.cells| ::
              (g.cells[i].row, g.cells[i].column) != (g.cells[j].row, g.cells[j].column)
  {
    forall i, j, s: Slot | 0 <= i < j < |g.cells| && Covers(g.cells[i], s) ensures !Covers(g.cells[j], s) {
      CountedIsCovered(g.cells[..j], s);
      assert Covers(g.cells[..j][i], s);
      if Covers(g.cells[j], s) { MeetingRefutes(g, j, s); }
    }
    forall i | 0 <= i < |g.cells| ensures Covers(g.cells[i], (g.cells[i].row as int, g.cells[i].column as int)) {
      assert CellFits(g, g.cells[i]);
    }
  }
}
