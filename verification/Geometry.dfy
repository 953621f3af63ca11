/** Cells, rectangles and the reference first-fit allocator over a set of occupied cells.
    Both allocators of the program are related to the definitions in this module. */
module Geometry {

  datatype Option<+T> = None | Some(value: T)

  datatype Cell = Cell(x: int, y: int)

  datatype Size = Size(w: int, h: int)

  /** An axis-aligned rectangle; it covers no cell when w or h is not positive. */
  datatype Rect = Rect(x: int, y: int, w: int, h: int)

  function At(c: Cell, s: Size): Rect {
    Rect(c.x, c.y, s.w, s.h)
  }

  predicate InRect(r: Rect, c: Cell) {
    r.x <= c.x < r.x + r.w && r.y <= c.y < r.y + r.h
  }

  ghost function Cells(r: Rect): set<Cell> {
    set x: int, y: int | r.x <= x < r.x + r.w && r.y <= y < r.y + r.h :: Cell(x, y)
  }

  function Area(r: Rect): nat {
    if r.w <= 0 || r.h <= 0 then 0 else r.w * r.h
  }

  ghost predicate Disjoint(a: Rect, b: Rect) {
    forall c: Cell :: !(InRect(a, c) && InRect(b, c))
  }

  predicate InGrid(cols: int, rows: int, c: Cell) {
    0 <= c.x < cols && 0 <= c.y < rows
  }

  /** The rectangle is anchored in the grid, lies in it and covers no occupied cell. */
  ghost predicate Fits(cols: int, rows: int, occ: set<Cell>, r: Rect) {
    && InGrid(cols, rows, Cell(r.x, r.y))
    && forall c: Cell :: InRect(r, c) ==> InGrid(cols, rows, c) && c !in occ
  }

  /** Row-major order on anchors: both searches scan rows first, then columns. */
  predicate Before(a: Cell, b: Cell) {
    a.y < b.y || (a.y == b.y && a.x < b.x)
  }

  ghost predicate IsLeast(s: set<Cell>, r: Option<Cell>) {
    match r
    case None => s == {}
    case Some(a) => a in s && forall c :: c in s ==> c == a || Before(a, c)
  }

  /** The row-major least element of a finite set of anchors. */
  ghost function Least(s: set<Cell>): (r: Option<Cell>)
    ensures IsLeast(s, r)
    decreases |s|
  {
    if s == {} then None
    else
      var c :| c in s;
      var rest := Least(s - {c});
      assert s == (s - {c}) + {c};
      if rest == None || Before(c, rest.value) then Some(c) else rest
  }

  lemma LeastUnique(s: set<Cell>, a: Option<Cell>, b: Option<Cell>)
    requires IsLeast(s, a) && IsLeast(s, b)
    ensures a == b
  {
  }

  /** Anchors at which a rectangle of the given size fits. */
  ghost function Anchors(cols: int, rows: int, occ: set<Cell>, s: Size): set<Cell> {
    set x: int, y: int | 0 <= x < cols && 0 <= y < rows && Fits(cols, rows, occ, At(Cell(x, y), s)) :: Cell(x, y)
  }

  /** The reference choice: the least anchor at which the rectangle fits. */
  ghost function FirstFit(cols: int, rows: int, occ: set<Cell>, s: Size): Option<Cell> {
    Least(Anchors(cols, rows, occ, s))
  }

  /** What the reference choice means, spelled out over all cells of the plane. */
  lemma FirstFitMeaning(cols: int, rows: int, occ: set<Cell>, s: Size)
    ensures var r := FirstFit(cols, rows, occ, s);
            match r
            case None => forall c: Cell :: !Fits(cols, rows, occ, At(c, s))
            case Some(a) =>
              && Fits(cols, rows, occ, At(a, s))
              && forall c: Cell :: Before(c, a) ==> !Fits(cols, rows, occ, At(c, s))
  {
    var all := Anchors(cols, rows, occ, s);
    forall c: Cell
      ensures Fits(cols, rows, occ, At(c, s)) <==> c in all
    {
      assert c == Cell(c.x, c.y);
    }
  }

  /** Reference run: the occupied cells and, per request, where it was placed. */
  datatype Reference = Reference(occ: set<Cell>, out: seq<Option<Rect>>)

  ghost function Allocate(cols: int, rows: int, sizes: seq<Size>): (r: Reference)
    ensures |r.out| == |sizes|
  {
    if sizes == [] then Reference({}, [])
    else
      var n := |sizes| - 1;
      var prev := Allocate(cols, rows, sizes[..n]);
      match FirstFit(cols, rows, prev.occ, sizes[n])
      case None => Reference(prev.occ, prev.out + [None])
      case Some(a) =>
        Reference(prev.occ + Cells(At(a, sizes[n])), prev.out + [Some(At(a, sizes[n]))])
  }

  /** All placed rectangles lie in the grid and no two of them share a cell. */
  ghost predicate Packed(cols: int, rows: int, out: seq<Option<Rect>>) {
    && (forall i :: 0 <= i < |out| && out[i].Some? ==>
          forall c: Cell :: InRect(out[i].value, c) ==> InGrid(cols, rows, c))
    && (forall i, j :: 0 <= i < j < |out| && out[i].Some? && out[j].Some? ==>
          Disjoint(out[i].value, out[j].value))
  }

  function TotalArea(out: seq<Option<Rect>>): nat {
    if out == [] then 0
    else TotalArea(out[..|out| - 1]) +
         (match out[|out| - 1] case None => 0 case Some(r) => Area(r))
  }

  /** All cells of the placed rectangles. */
  ghost function CellsOf(out: seq<Option<Rect>>): set<Cell> {
    if out == [] then {}
    else CellsOf(out[..|out| - 1]) +
         (match out[|out| - 1] case None => {} case Some(r) => Cells(r))
  }

  /** The reference run's occupied set is exactly what was placed. */
  lemma {:induction false} AllocateCells(cols: int, rows: int, sizes: seq<Size>)
    ensures var r := Allocate(cols, rows, sizes); r.occ == CellsOf(r.out)
  {
    if sizes != [] {
      var n := |sizes| - 1;
      AllocateCells(cols, rows, sizes[..n]);
      assert Allocate(cols, rows, sizes).out[..n] == Allocate(cols, rows, sizes[..n]).out;
    }
  }

  lemma CellsMember(r: Rect, c: Cell)
    ensures c in Cells(r) <==> InRect(r, c)
  {
    assert c == Cell(c.x, c.y);
  }

  /** The reference run never overlaps; a cell is occupied iff a placed rectangle covers it. */
  lemma {:induction false} AllocatePacked(cols: int, rows: int, sizes: seq<Size>)
    ensures var r := Allocate(cols, rows, sizes);
            && Packed(cols, rows, r.out)
            && (forall c: Cell :: c in r.occ <==>
                  exists i :: 0 <= i < |r.out| && r.out[i].Some? && InRect(r.out[i].value, c))
  {
    if sizes != [] {
      var n := |sizes| - 1;
      AllocatePacked(cols, rows, sizes[..n]);
      var prev := Allocate(cols, rows, sizes[..n]);
      var r := Allocate(cols, rows, sizes);
      FirstFitMeaning(cols, rows, prev.occ, sizes[n]);
      forall c: Cell
        ensures c in r.occ <==>
                exists i :: 0 <= i < |r.out| && r.out[i].Some? && InRect(r.out[i].value, c)
      {
        if r.out[n].Some? {
          CellsMember(r.out[n].value, c);
        }
        if c in prev.occ {
          var i :| 0 <= i < n && prev.out[i].Some? && InRect(prev.out[i].value, c);
          assert r.out[i] == prev.out[i];
        }
      }
      forall i, j | 0 <= i < j < |r.out| && r.out[i].Some? && r.out[j].Some?
        ensures Disjoint(r.out[i].value, r.out[j].value)
      {
        assert r.out[i] == prev.out[i];
        if j < n {
          assert r.out[j] == prev.out[j];
        }
      }
    }
  }
}
