/** Rectangles stored in linear buffers. A rectangle whose rows start `stride` entries apart
    occupies the indices Strided(start, stride, w, h). */
module LinearBuffer {
  import opened Geometry

  /** Linear index of a cell in a buffer holding `stride` entries per row. */
  function Pos(stride: int, c: Cell): int {
    stride * c.y + c.x
  }

  ghost function Run(start: int, len: int): (r: set<int>)
    ensures forall p :: p in r <==> start <= p < start + len
    decreases len
  {
    if len <= 0 then {} else Run(start, len - 1) + {start + len - 1}
  }

  /** The first index of row k. */
  ghost function RowStart(start: int, stride: int, k: int): int
    decreases k
  {
    if k <= 0 then start else RowStart(start, stride, k - 1) + stride
  }

  ghost function Strided(start: int, stride: int, w: int, h: int): set<int> {
    if h <= 0 then {} else Strided(start, stride, w, h - 1) + Run(RowStart(start, stride, h - 1), w)
  }

  /** Index p is in row i of the rectangle. */
  ghost predicate InRow(start: int, stride: int, w: int, i: int, p: int) {
    RowStart(start, stride, i) <= p < RowStart(start, stride, i) + w
  }

  lemma {:induction false} StridedMember(start: int, stride: int, w: int, h: int, p: int)
    ensures p in Strided(start, stride, w, h) <==> exists i :: 0 <= i < h && InRow(start, stride, w, i, p)
    decreases h
  {
    if h > 0 {
      StridedMember(start, stride, w, h - 1, p);
      assert p in Run(RowStart(start, stride, h - 1), w) <==> InRow(start, stride, w, h - 1, p);
    }
  }

  /** The cells whose entry is in `m`, for a buffer of `rows` rows of `stride` entries. */
  ghost function Occupied(stride: int, rows: int, m: set<int>): set<Cell> {
    set x: int, y: int | 0 <= x < stride && 0 <= y < rows && Pos(stride, Cell(x, y)) in m :: Cell(x, y)
  }

  lemma OccupiedMember(stride: int, rows: int, m: set<int>, c: Cell)
    ensures c in Occupied(stride, rows, m) <==> InGrid(stride, rows, c) && Pos(stride, c) in m
  {
    assert c == Cell(c.x, c.y);
  }

  /** An index lies in the row segment [y, x..x+w) exactly when its cell does. */
  lemma RowSegment(stride: int, c: Cell, x: int, y: int, w: int)
    requires 0 <= x && x + w <= stride && 0 <= c.x < stride
    ensures stride * y + x <= Pos(stride, c) < stride * y + x + w <==> c.y == y && x <= c.x < x + w
  {
    if c.y < y {
      assert stride * c.y <= stride * (y - 1);
    } else if c.y > y {
      assert stride * c.y >= stride * (y + 1);
    }
  }

  /** Row k of a rectangle starts at the index of its first cell. */
  lemma {:induction false} RowStartPos(stride: int, x: int, y: int, k: int)
    requires 0 <= k
    ensures RowStart(Pos(stride, Cell(x, y)), stride, k) == stride * (y + k) + x
    decreases k
  {
    if k > 0 {
      RowStartPos(stride, x, y, k - 1);
      assert stride * (y + k) == stride * (y + k - 1) + stride;
    }
  }

  lemma MulMono(a: int, b: int, k: int)
    requires a <= b && 0 <= k
    ensures a * k <= k * b == b * k
  {
  }

  lemma {:induction false} RowStartIs(start: int, stride: int, k: int)
    requires 0 <= k
    ensures RowStart(start, stride, k) == start + k * stride
    decreases k
  {
    if k > 0 {
      RowStartIs(start, stride, k - 1);
      assert k * stride == (k - 1) * stride + stride;
    }
  }

  lemma {:induction false} EightRows(start: int, k: int)
    requires 0 <= k
    ensures RowStart(start, 8, k) == start + 8 * k
    decreases k
  {
    if k > 0 {
      EightRows(start, k - 1);
    }
  }

  lemma {:induction false} RowStartMono(start: int, stride: int, i: int, k: int)
    requires 0 <= stride && i <= k
    ensures RowStart(start, stride, i) <= RowStart(start, stride, k)
    decreases k - i
  {
    if i < k {
      RowStartMono(start, stride, i, k - 1);
    }
  }

  lemma {:induction false} RowStartGrows(start: int, stride: int, k: int)
    requires 0 <= stride
    ensures start <= RowStart(start, stride, k)
    decreases k
  {
    if k > 0 {
      RowStartGrows(start, stride, k - 1);
    }
  }

  /** With the true stride, a rectangle's indices are exactly the indices of its cells. */
  lemma {:induction false} StridedRect(stride: int, r: Rect, c: Cell)
    requires 0 <= r.x && r.x + r.w <= stride && 0 <= c.x < stride
    ensures Pos(stride, c) in Strided(Pos(stride, Cell(r.x, r.y)), stride, r.w, r.h) <==> InRect(r, c)
    decreases r.h
  {
    if r.h > 0 {
      StridedRect(stride, r.(h := r.h - 1), c);
      RowStartPos(stride, r.x, r.y, r.h - 1);
      RowSegment(stride, c, r.x, r.y + r.h - 1, r.w);
    }
  }

  lemma {:induction false} RunSize(start: int, len: int)
    ensures |Run(start, len)| == if len <= 0 then 0 else len
    decreases len
  {
    if len > 0 {
      RunSize(start, len - 1);
    }
  }

  lemma {:induction false} StridedBounds(start: int, stride: int, w: int, h: int, p: int)
    requires 0 <= stride && p in Strided(start, stride, w, h)
    ensures start <= p < RowStart(start, stride, h - 1) + w && 0 < h && 0 < w
    decreases h
  {
    if p in Strided(start, stride, w, h - 1) {
      StridedBounds(start, stride, w, h - 1, p);
    } else {
      RowStartGrows(start, stride, h - 1);
    }
  }

  /** Rows no wider than the stride do not share indices, so a rectangle has w * h of them. */
  lemma {:induction false} StridedSize(start: int, stride: int, w: int, h: int)
    requires 0 <= stride && (h <= 1 || w <= stride)
    ensures |Strided(start, stride, w, h)| == Area(Rect(0, 0, w, h))
    decreases h
  {
    if h > 0 {
      StridedSize(start, stride, w, h - 1);
      RunSize(RowStart(start, stride, h - 1), w);
      RowsApart(start, stride, w, h);
      AreaStep(w, h);
      UnionSize(Strided(start, stride, w, h - 1), Run(RowStart(start, stride, h - 1), w));
    }
  }

  lemma AreaStep(w: int, h: int)
    requires 0 < h
    ensures Area(Rect(0, 0, w, h)) == Area(Rect(0, 0, w, h - 1)) + if w <= 0 then 0 else w
  {
  }

  lemma UnionSize<T>(a: set<T>, b: set<T>)
    requires a !! b
    ensures |a + b| == |a| + |b|
  {
  }

  lemma RowsApart(start: int, stride: int, w: int, h: int)
    requires 0 <= stride && 0 < h && (h <= 1 || w <= stride)
    ensures Strided(start, stride, w, h - 1) !! Run(RowStart(start, stride, h - 1), w)
  {
    var before := Strided(start, stride, w, h - 1);
    forall p | p in before
      ensures p < RowStart(start, stride, h - 1)
    {
      StridedBounds(start, stride, w, h - 1, p);
    }
  }

  /** Adding a rectangle's indices adds exactly its cells. */
  lemma FillAddsCells(stride: int, rows: int, m: set<int>, r: Rect)
    requires 0 <= r.x && r.x + r.w <= stride && 0 <= r.y && r.y + r.h <= rows
    ensures Occupied(stride, rows, m + Strided(Pos(stride, Cell(r.x, r.y)), stride, r.w, r.h))
         == Occupied(stride, rows, m) + Cells(r)
  {
    var fill := Strided(Pos(stride, Cell(r.x, r.y)), stride, r.w, r.h);
    forall c: Cell
      ensures c in Occupied(stride, rows, m + fill) <==> c in Occupied(stride, rows, m) + Cells(r)
    {
      OccupiedMember(stride, rows, m, c);
      OccupiedMember(stride, rows, m + fill, c);
      CellsMember(r, c);
      if 0 <= c.x < stride {
        StridedRect(stride, r, c);
      }
    }
  }

  /** Every index of a rectangle inside the buffer is the index of one of its cells. */
  lemma {:induction false} StridedHasCell(stride: int, r: Rect, p: int) returns (c: Cell)
    requires 0 <= r.x && r.x + r.w <= stride
    requires p in Strided(Pos(stride, Cell(r.x, r.y)), stride, r.w, r.h)
    ensures InRect(r, c) && Pos(stride, c) == p
    decreases r.h
  {
    var start := Pos(stride, Cell(r.x, r.y));
    if p in Strided(start, stride, r.w, r.h - 1) {
      c := StridedHasCell(stride, r.(h := r.h - 1), p);
    } else {
      RowStartPos(stride, r.x, r.y, r.h - 1);
      c := Cell(p - stride * (r.y + r.h - 1), r.y + r.h - 1);
    }
  }

  /** A rectangle misses the set entries exactly when its cells are all free. */
  lemma MissIffCellsFree(stride: int, rows: int, m: set<int>, r: Rect)
    requires 0 <= r.x && r.x + r.w <= stride && 0 <= r.y && r.y + r.h <= rows
    ensures Strided(Pos(stride, Cell(r.x, r.y)), stride, r.w, r.h) !! m
       <==> forall c: Cell :: InRect(r, c) ==> c !in Occupied(stride, rows, m)
  {
    var fill := Strided(Pos(stride, Cell(r.x, r.y)), stride, r.w, r.h);
    if forall c: Cell :: InRect(r, c) ==> c !in Occupied(stride, rows, m) {
      forall p | p in fill
        ensures p !in m
      {
        var c := StridedHasCell(stride, r, p);
        OccupiedMember(stride, rows, m, c);
      }
    }
    if fill !! m {
      forall c: Cell | InRect(r, c)
        ensures c !in Occupied(stride, rows, m)
      {
        OccupiedMember(stride, rows, m, c);
        StridedRect(stride, r, c);
      }
    }
  }

  lemma {:induction false} EmptyStrided(start: int, stride: int, w: int, h: int)
    requires w <= 0 || h <= 0
    ensures Strided(start, stride, w, h) == {}
    decreases h
  {
    if h > 0 {
      EmptyStrided(start, stride, w, h - 1);
    }
  }

  /** The indices visited before column j of row i by loops over rows and columns. */
  ghost function Scanned(start: int, stride: int, w: int, i: int, j: int): set<int>
    decreases i, j
  {
    if j > 0 then Scanned(start, stride, w, i, j - 1) + {RowStart(start, stride, i) + j - 1}
    else if i > 0 then Scanned(start, stride, w, i - 1, w)
    else {}
  }

  lemma AddOne(m: set<int>, s: set<int>, p: int)
    ensures m + s + {p} == m + (s + {p})
  {
  }

  lemma DropOne(m: set<int>, s: set<int>, p: int)
    ensures m - s - {p} == m - (s + {p})
  {
  }

  lemma {:induction false} ScannedRow(start: int, stride: int, w: int, i: int, j: int)
    requires 0 <= i && 0 <= j
    ensures Scanned(start, stride, w, i, j) == Strided(start, stride, w, i) + Run(RowStart(start, stride, i), j)
    decreases i, j
  {
    if j > 0 {
      ScannedRow(start, stride, w, i, j - 1);
    } else if i > 0 {
      if w > 0 {
        ScannedRow(start, stride, w, i - 1, w);
      } else {
        ScannedRow(start, stride, w, i - 1, 0);
      }
    }
  }

  /** After the row loop the whole rectangle has been visited. */
  lemma ScannedAll(start: int, stride: int, w: int, h: int, i: int)
    requires 0 <= i && h <= i && (0 < i ==> i <= h)
    ensures Scanned(start, stride, w, i, 0) == Strided(start, stride, w, h)
  {
    ScannedRow(start, stride, w, i, 0);
  }

  /** None of the indices visited before column j of row i is taken. */
  ghost predicate ClearSoFar(start: int, stride: int, w: int, i: int, j: int, taken: set<int>)
    decreases i, j
  {
    if j > 0 then ClearSoFar(start, stride, w, i, j - 1, taken) && RowStart(start, stride, i) + j - 1 !in taken
    else i > 0 ==> ClearSoFar(start, stride, w, i - 1, w, taken)
  }

  lemma {:induction false} ClearIsDisjoint(start: int, stride: int, w: int, i: int, j: int, taken: set<int>)
    ensures ClearSoFar(start, stride, w, i, j, taken) <==> Scanned(start, stride, w, i, j) !! taken
    decreases i, j
  {
    if j > 0 {
      ClearIsDisjoint(start, stride, w, i, j - 1, taken);
    } else if i > 0 {
      ClearIsDisjoint(start, stride, w, i - 1, w, taken);
    }
  }

  /** A taken index found in row i, column j refutes that the rectangle is free. */
  lemma {:induction false} Hit(start: int, stride: int, w: int, h: int, i: int, j: int, taken: set<int>)
    requires 0 <= i < h && 0 <= j < w && RowStart(start, stride, i) + j in taken
    ensures !(Strided(start, stride, w, h) !! taken)
    decreases h
  {
    if i < h - 1 {
      Hit(start, stride, w, h - 1, i, j, taken);
    } else {
      assert RowStart(start, stride, i) + j in Run(RowStart(start, stride, i), w);
    }
  }
}
