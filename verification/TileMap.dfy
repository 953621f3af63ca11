/** What the tile layout's bitmap means: bit positions, the literal index of the map macros,
    and when that index describes the rectangle that was asked for. */
module TileMap {
  import opened Geometry
  import opened LinearBuffer

  /** Columns and rows of a page; a bitmap row takes Width() whole bytes. */
  datatype Grid = Grid(cols: nat, rows: nat) {
    function Width(): nat {
      (cols + 7) / 8
    }

    function Stride(): nat {
      8 * Width()
    }
  }

  /** The positions the macros address for a rectangle. The macro's row argument is `y + i`
      without parentheses, so row i is i bytes, not i bitmap rows, after row y. */
  ghost function Literal(g: Grid, r: Rect): set<int> {
    Strided(Pos(g.Stride(), Cell(r.x, r.y)), 8, r.w, r.h)
  }

  /** The position the macros compute for column `x + j` and the row argument `y + i`: bit
      (x + j) & 7 of byte map.w * y + i + (((x + j) & ~7) >> 3). */
  function MacroBit(cols: nat, x: int, y: int, i: int, j: int): int {
    8 * ((cols + 7) / 8 * y + i + (x + j) / 8) + (x + j) % 8
  }

  /** Some cell in row i of the rectangle is addressed at position p. */
  ghost predicate AddressedAt(g: Grid, r: Rect, i: int, p: int) {
    exists j :: 0 <= j < r.w && p == MacroBit(g.cols, r.x, r.y, i, j)
  }

  lemma AddressedIs(g: Grid, r: Rect, i: int, p: int)
    requires 0 <= i
    ensures AddressedAt(g, r, i, p) <==> InRow(Pos(g.Stride(), Cell(r.x, r.y)), 8, r.w, i, p)
  {
    var start := Pos(g.Stride(), Cell(r.x, r.y));
    EightRows(start, i);
    forall j
      ensures MacroBit(g.cols, r.x, r.y, i, j) == start + 8 * i + j
    {
      assert start == 8 * ((g.cols + 7) / 8 * r.y) + r.x;
    }
    var j := p - start - 8 * i;
    assert p == MacroBit(g.cols, r.x, r.y, i, j);
  }

  /** On pages of any width the positions addressed for a rectangle are those the macros compute,
      cell by cell. */
  lemma LiteralIs(g: Grid, r: Rect, p: int)
    ensures p in Literal(g, r) <==> exists i :: 0 <= i < r.h && AddressedAt(g, r, i, p)
  {
    var start := Pos(g.Stride(), Cell(r.x, r.y));
    StridedMember(start, 8, r.w, r.h, p);
    forall i | 0 <= i
      ensures AddressedAt(g, r, i, p) <==> InRow(start, 8, r.w, i, p)
    {
      AddressedIs(g, r, i, p);
    }
  }

  /** The positions of the rectangle's own cells. */
  ghost function Intended(g: Grid, r: Rect): set<int> {
    Strided(Pos(g.Stride(), Cell(r.x, r.y)), g.Stride(), r.w, r.h)
  }

  ghost function Occ(g: Grid, bits: set<int>): set<Cell> {
    Occupied(g.Stride(), g.rows, bits)
  }

  predicate Inside(g: Grid, r: Rect) {
    Area(r) == 0 || (r.x + r.w <= g.cols && r.y + r.h <= g.rows)
  }

  /** What the code's test decides for an anchor of the grid. */
  ghost predicate TileFree(g: Grid, bits: set<int>, r: Rect) {
    InGrid(g.cols, g.rows, Cell(r.x, r.y)) && Inside(g, r) && Literal(g, r) !! bits
  }

  /** On pages of any width: the test holds from an anchor of the grid exactly when the rectangle
      stays on the page and no position the macros compute for it is set. */
  lemma FreeTestIs(g: Grid, bits: set<int>, r: Rect)
    ensures TileFree(g, bits, r) <==>
              && 0 <= r.x < g.cols && 0 <= r.y < g.rows
              && (r.w <= 0 || r.h <= 0 || (r.x + r.w <= g.cols && r.y + r.h <= g.rows))
              && forall i, j :: 0 <= i < r.h && 0 <= j < r.w ==> MacroBit(g.cols, r.x, r.y, i, j) !in bits
  {
    AreaZero(r);
    NoneSet(g, bits, r);
  }

  lemma NoneSet(g: Grid, bits: set<int>, r: Rect)
    ensures Literal(g, r) !! bits <==>
              forall i, j :: 0 <= i < r.h && 0 <= j < r.w ==> MacroBit(g.cols, r.x, r.y, i, j) !in bits
  {
    forall i, j | 0 <= i < r.h && 0 <= j < r.w
      ensures MacroBit(g.cols, r.x, r.y, i, j) in Literal(g, r)
    {
      var p := MacroBit(g.cols, r.x, r.y, i, j);
      assert AddressedAt(g, r, i, p);
      LiteralIs(g, r, p);
    }
    forall p | p in Literal(g, r) && p in bits
      ensures exists i, j :: 0 <= i < r.h && 0 <= j < r.w && MacroBit(g.cols, r.x, r.y, i, j) in bits
    {
      LiteralIs(g, r, p);
      var i :| 0 <= i < r.h && AddressedAt(g, r, i, p);
      var j :| 0 <= j < r.w && p == MacroBit(g.cols, r.x, r.y, i, j);
      assert MacroBit(g.cols, r.x, r.y, i, j) in bits;
    }
  }

  ghost function TileAnchors(g: Grid, bits: set<int>, s: Size): set<Cell> {
    set x: int, y: int | 0 <= x < g.cols && 0 <= y < g.rows && TileFree(g, bits, At(Cell(x, y), s)) :: Cell(x, y)
  }

  /** Where the code places an item, if anywhere. */
  ghost function TileChoice(g: Grid, bits: set<int>, s: Size): Option<Rect> {
    match Least(TileAnchors(g, bits, s))
    case None => None
    case Some(a) => Some(At(a, s))
  }

  ghost function TileMark(g: Grid, bits: set<int>, choice: Option<Rect>): set<int> {
    match choice
    case None => bits
    case Some(r) => bits + Literal(g, r)
  }

  /** The macros address the intended cells of any rectangle of height h on this page:
      bitmap rows are one byte, or there is only one row to address. */
  predicate Sound(g: Grid, h: int) {
    g.cols <= 8 || g.rows <= 1 || h <= 1
  }

  lemma LiteralIsIntended(g: Grid, r: Rect)
    requires Sound(g, r.h) && 0 < g.cols && r.h <= g.rows
    ensures Literal(g, r) == Intended(g, r)
  {
    if g.cols <= 8 {
      assert g.Stride() == 8;
    } else if r.h == 1 {
      OneRow(Pos(g.Stride(), Cell(r.x, r.y)), 8, g.Stride(), r.w);
    }
  }

  lemma OneRow(start: int, s: int, t: int, w: int)
    ensures Strided(start, s, w, 1) == Strided(start, t, w, 1)
  {
    assert Strided(start, s, w, 0) == {} && Strided(start, t, w, 0) == {};
  }

  lemma AreaZero(r: Rect)
    ensures Area(r) == 0 <==> r.w <= 0 || r.h <= 0
  {
    if r.w > 0 && r.h > 0 {
      assert r.w * r.h > 0;
    }
  }

  lemma InsideIffCells(g: Grid, r: Rect)
    requires InGrid(g.cols, g.rows, Cell(r.x, r.y))
    ensures Inside(g, r) <==> forall c: Cell :: InRect(r, c) ==> InGrid(g.cols, g.rows, c)
  {
    AreaZero(r);
    if Area(r) > 0 && !Inside(g, r) {
      var far := Cell(r.x + r.w - 1, r.y + r.h - 1);
      assert InRect(r, far) && !InGrid(g.cols, g.rows, far);
    }
  }

  /** Under the soundness condition, the code's test is exactly the geometric one. */
  lemma FreeIsFits(g: Grid, bits: set<int>, r: Rect)
    requires Sound(g, r.h)
    ensures TileFree(g, bits, r) <==> Fits(g.cols, g.rows, Occ(g, bits), r)
  {
    if InGrid(g.cols, g.rows, Cell(r.x, r.y)) {
      InsideIffCells(g, r);
      AreaZero(r);
      if Area(r) == 0 {
        EmptyStrided(Pos(g.Stride(), Cell(r.x, r.y)), 8, r.w, r.h);
      } else if Inside(g, r) {
        LiteralIsIntended(g, r);
        MissIffCellsFree(g.Stride(), g.rows, bits, r);
      }
    }
  }

  /** Under the soundness condition, marking adds exactly the rectangle's cells. */
  lemma MarkAddsCells(g: Grid, bits: set<int>, r: Rect)
    requires Sound(g, r.h) && InGrid(g.cols, g.rows, Cell(r.x, r.y)) && Inside(g, r)
    ensures Occ(g, bits + Literal(g, r)) == Occ(g, bits) + Cells(r)
  {
    AreaZero(r);
    if Area(r) == 0 {
      EmptyStrided(Pos(g.Stride(), Cell(r.x, r.y)), 8, r.w, r.h);
      assert bits + Literal(g, r) == bits && Occ(g, bits) + Cells(r) == Occ(g, bits);
    } else {
      LiteralIsIntended(g, r);
      FillAddsCells(g.Stride(), g.rows, bits, r);
    }
  }

  /** On a wide page the last cell of a several-row rectangle is never addressed. */
  lemma LastCellMissed(g: Grid, r: Rect)
    requires !Sound(g, r.h) && InGrid(g.cols, g.rows, Cell(r.x, r.y)) && Area(r) > 0
    ensures Pos(g.Stride(), Cell(r.x + r.w - 1, r.y + r.h - 1)) !in Literal(g, r)
  {
    var start, last := Pos(g.Stride(), Cell(r.x, r.y)), Pos(g.Stride(), Cell(r.x + r.w - 1, r.y + r.h - 1));
    AreaZero(r);
    EightRows(start, r.h - 1);
    MulMono(16, g.Stride(), r.h - 1);
    assert g.Stride() * (r.y + r.h - 1) == g.Stride() * r.y + g.Stride() * (r.h - 1);
    assert last >= RowStart(start, 8, r.h - 1) + r.w;
    if last in Literal(g, r) {
      StridedBounds(start, 8, r.w, r.h, last);
    }
  }

  /** mark_area adds exactly the cells of a free rectangle iff the page has at most eight
      columns or the rectangle has one row (as on a one-row page). */
  lemma MarkExactIff(g: Grid, bits: set<int>, r: Rect)
    requires Fits(g.cols, g.rows, Occ(g, bits), r) && Area(r) > 0
    ensures Occ(g, bits + Literal(g, r)) == Occ(g, bits) + Cells(r) <==> Sound(g, r.h)
  {
    InsideIffCells(g, r);
    AreaZero(r);
    if Sound(g, r.h) {
      MarkAddsCells(g, bits, r);
    } else {
      var far := Cell(r.x + r.w - 1, r.y + r.h - 1);
      LastCellMissed(g, r);
      assert InRect(r, far);
      CellsMember(r, far);
      OccupiedMember(g.Stride(), g.rows, bits, far);
      OccupiedMember(g.Stride(), g.rows, bits + Literal(g, r), far);
    }
  }

  /** is_free_area decides freeness for every map content iff the same condition holds. */
  lemma FreeExactIff(g: Grid, r: Rect)
    requires InGrid(g.cols, g.rows, Cell(r.x, r.y)) && Area(r) > 0 && Inside(g, r)
    ensures (forall bits: set<int> :: TileFree(g, bits, r) <==> Fits(g.cols, g.rows, Occ(g, bits), r))
       <==> Sound(g, r.h)
  {
    if Sound(g, r.h) {
      forall bits: set<int>
        ensures TileFree(g, bits, r) <==> Fits(g.cols, g.rows, Occ(g, bits), r)
      {
        FreeIsFits(g, bits, r);
      }
    } else {
      var far := Cell(r.x + r.w - 1, r.y + r.h - 1);
      var bits := {Pos(g.Stride(), far)};
      AreaZero(r);
      LastCellMissed(g, r);
      assert InRect(r, far);
      OccupiedMember(g.Stride(), g.rows, bits, far);
      assert TileFree(g, bits, r) && !Fits(g.cols, g.rows, Occ(g, bits), r);
    }
  }
}
