/** The tile layout: a page of square tiles with a bit-packed occupancy map. */
module TileLayout {
  import opened Geometry
  import opened LinearBuffer
  import opened Bytes
  import opened BitMap
  import opened TileMap

  /** An inclusive area, as the drawing library stores it. */
  datatype LvArea = LvArea(x1: int, y1: int, x2: int, y2: int) {
    function Width(): int { x2 - x1 + 1 }
    function Height(): int { y2 - y1 + 1 }
    function ToRect(): Rect { Rect(x1, y1, Width(), Height()) }
  }

  /** What a caller gets back: nothing, the non-null padding marker, or a new grid child. */
  datatype Item = Null | Padding | Object(cell: Rect)

  lemma IndexInMap(width: int, height: int, y: int, i: int, x: int)
    requires 0 <= y && 0 <= i && y + i < height && 0 <= x < 8 * width
    ensures 0 <= width * y + i + x / 8 < width * height
    ensures 8 * (width * y + i + x / 8) + x % 8 == 8 * width * y + x + i * 8
  {
    assert x / 8 < width && 1 <= width;
    MulMono(1, width, i);
    MulMono(y + i + 1, height, width);
    assert width * (y + i + 1) == width * y + width * i + width;
  }

  lemma FloorQuotient(a: int, b: int)
    requires 0 <= a && 0 < b
    ensures (a as real / b as real).Floor == a / b
  {
    var q := a / b;
    assert q * b <= a < q * b + b;
    QuotientOrder(a, b, q);
    QuotientOrder(a, b, q + 1);
  }

  lemma QuotientOrder(a: int, b: int, q: int)
    requires 0 < b
    ensures q as real <= a as real / b as real <==> q * b <= a
  {
    var t := a as real / b as real;
    assert t * b as real == a as real;
    assert (q as real) * (b as real) == (q * b) as real;
    RealOrder(q as real, t, b as real);
  }

  lemma RealOrder(s: real, t: real, k: real)
    requires 0.0 < k
    ensures s <= t <==> s * k <= t * k
  {
    if s > t {
      assert (s - t) * k > 0.0;
    }
  }

  /** r may stand for t after rounding to the nearest single-precision number: the error is at
      most 2^-24 of t, and whole numbers below 2^24 are kept. */
  predicate Rounded(t: real, r: real) {
    && -t <= (r - t) * 16777216.0 <= t
    && (t == t.Floor as real && t < 16777216.0 ==> r == t)
  }

  /** Truncating the rounded quotient is exact for dividends below 2^24: an unrounded one that is
      not whole is at least 1 / b from the next whole number, and the error is smaller. */
  lemma FloatQuotient(a: int, b: int, r: real)
    requires 0 <= a < 0x100_0000 && 0 < b && Rounded(a as real / b as real, r)
    ensures r.Floor == a / b
  {
    var t, unit := a as real / b as real, 1.0 / b as real;
    if a % b == 0 {
      WholeQuotient(a, b);
    } else {
      QuotientApart(a, b, t, unit);
      ErrorBelow(a, b as real, t, unit, r - t);
    }
  }

  lemma WholeQuotient(a: int, b: int)
    requires 0 <= a < 0x100_0000 && 0 < b && a % b == 0
    ensures a as real / b as real == (a / b) as real < 16777216.0
  {
    var q := a / b;
    assert a == q * b;
    assert a as real == q as real * b as real;
    assert q <= a;
  }

  lemma QuotientApart(a: int, b: int, t: real, unit: real)
    requires 0 < b && a % b != 0
    requires t == a as real / b as real && unit == 1.0 / b as real
    ensures (a / b) as real + unit <= t <= (a / b + 1) as real - unit
  {
    var q, k := a / b, b as real;
    var low, high := q * b, (q + 1) * b;
    assert low + 1 <= a <= high - 1 by {
      assert a == low + a % b && high == low + b;
    }
    RealProduct(q, b);
    RealProduct(q + 1, b);
    UnitApart(q as real, t, k, unit, low as real, a as real);
    UnitApart(t, (q + 1) as real, k, unit, a as real, high as real);
  }

  lemma RealProduct(q: int, b: int)
    ensures q as real * b as real == (q * b) as real
  {
  }

  /** Numbers whose k-folds are 1 apart are 1 / k apart. */
  lemma UnitApart(s: real, t: real, k: real, unit: real, sk: real, tk: real)
    requires 0.0 < k && unit == 1.0 / k && s * k == sk && t * k == tk && sk + 1.0 <= tk
    ensures s + unit <= t
  {
    assert unit * k == 1.0;
    assert (s + unit) * k == sk + 1.0;
    RealOrder(s + unit, t, k);
  }

  lemma ErrorBelow(a: int, k: real, t: real, unit: real, d: real)
    requires 0 <= a < 0x100_0000 && 0.0 < k && t == a as real / k && unit == 1.0 / k
    requires -t <= d * 16777216.0 <= t
    ensures -unit < d < unit
  {
    assert t * k == a as real && unit * k == 1.0;
    RealOrder(16777216.0 * unit, t, k);
  }

  function Ceil(t: real): int {
    -((-t).Floor)
  }

  /** The rounded-up eighth is the least number of bytes with a bit for each column. */
  lemma CeilEighth(cols: nat)
    ensures Ceil(cols as real / 8.0) == (cols + 7) / 8
    ensures 8 * ((cols + 7) / 8) - 8 < cols <= 8 * ((cols + 7) / 8)
  {
    var q := (cols + 7) / 8;
    assert -(cols as real / 8.0) >= (-q) as real;
    assert -(cols as real / 8.0) < (-q + 1) as real;
  }

  /** Position addressed by the map macros for column x and row argument `y + i`. */
  ghost function MacroPos(width: int, x: int, y: int, i: int): int {
    8 * width * y + x + i * 8
  }

  lemma MacroStart(g: Grid, x: int, y: int)
    ensures MacroPos(g.Width(), x, y, 0) == Pos(g.Stride(), Cell(x, y))
  {
  }

  method SetBit(data: array<Byte>, ghost bits: set<int>, k: int, b: int)
    requires 0 <= k < data.Length && 0 <= b < 8 && Shows(data[..], bits)
    modifies data
    ensures Shows(data[..], bits + {8 * k + b})
  {
    SetPosition(data[..], bits, k, b);
    ghost var before := data[..];
    data[k] := data[k] | Mask(b);
    assert data[..] == before[k := before[k] | Mask(b)];
  }

  method ClearBit(data: array<Byte>, ghost bits: set<int>, k: int, b: int)
    requires 0 <= k < data.Length && 0 <= b < 8 && Shows(data[..], bits)
    modifies data
    ensures Shows(data[..], bits - {8 * k + b})
  {
    ClearPosition(data[..], bits, k, b);
    ghost var before := data[..];
    data[k] := data[k] & !Mask(b);
    assert data[..] == before[k := before[k] & !Mask(b)];
  }

  class TileLayout {
    var data: array<Byte>
    var mapW: int
    var mapH: int
    var w: int
    var h: int
    var baseSize: int
    var cols: int
    var rows: int
    /** The children created so far, by the grid cell each was given. */
    var children: seq<Rect>
    /** The positions of the set bits of the map. */
    ghost var bits: set<int>

    ghost predicate Valid()
      reads this, data
    {
      && 0 <= cols && 0 <= rows
      && mapW == (cols + 7) / 8 && mapH == rows
      && data.Length == mapW * mapH
      && Shows(data[..], bits)
    }

    ghost function Page(): Grid
      reads this, data
      requires Valid()
    {
      Grid(cols, rows)
    }

    /** Sizes are truncated quotients, computed in floating point and exact here. */
    constructor (contentW: int, contentH: int, w0: int, h0: int, baseSize: int)
      requires 0 <= contentW && 0 <= contentH && 0 <= w0 && 0 <= h0 && 0 < baseSize
      ensures Valid() && fresh(data) && children == [] && bits == {}
      ensures cols == (if w0 == 0 then contentW else w0) / baseSize
      ensures rows == (if h0 == 0 then contentH else h0) / baseSize
      ensures 8 * mapW - 8 < cols <= 8 * mapW
      ensures w == cols * baseSize && h == rows * baseSize && this.baseSize == baseSize
    {
      var pw := if w0 == 0 then contentW else w0;
      var ph := if h0 == 0 then contentH else h0;
      FloorQuotient(pw, baseSize);
      FloorQuotient(ph, baseSize);
      var c := (pw as real / baseSize as real).Floor;
      var r := (ph as real / baseSize as real).Floor;
      CeilEighth(c);
      var width := Ceil(c as real / 8.0);
      assert 0 <= width * r by { MulMono(0, width, r); }
      cols := c;
      rows := r;
      w := c * baseSize;
      h := r * baseSize;
      this.baseSize := baseSize;
      mapW := width;
      mapH := r;
      data := new Byte[width * r](_ => 0);
      children := [];
      bits := {};
      new;
      NothingSet(data[..]);
    }

    /** The rectangle lies in the bitmap's rows and bytes, or covers nothing. */
    ghost predicate Addressable(a: LvArea)
      reads this
    {
      || a.Width() <= 0 || a.Height() <= 0
      || (0 <= a.x1 && a.x2 < 8 * mapW && 0 <= a.y1 && a.y2 < mapH)
    }

    /** The map macros with `x` for the column and `y + i` for the row: the byte index is
        map.w * y + i + x / 8. */
    method UnmarkMap(x: int, y: int, i: int)
      requires Valid() && 0 <= y && 0 <= i && y + i < mapH && 0 <= x < 8 * mapW
      modifies data, this`bits
      ensures Valid() && bits == old(bits) - {MacroPos(mapW, x, y, i)}
    {
      IndexInMap(mapW, mapH, y, i, x);
      ClearBit(data, bits, mapW * y + i + x / 8, x % 8);
      bits := bits - {MacroPos(mapW, x, y, i)};
    }

    method MarkMap(x: int, y: int, i: int)
      requires Valid() && 0 <= y && 0 <= i && y + i < mapH && 0 <= x < 8 * mapW
      modifies data, this`bits
      ensures Valid() && bits == old(bits) + {MacroPos(mapW, x, y, i)}
    {
      IndexInMap(mapW, mapH, y, i, x);
      SetBit(data, bits, mapW * y + i + x / 8, x % 8);
      bits := bits + {MacroPos(mapW, x, y, i)};
    }

    method ReadMap(x: int, y: int, i: int) returns (marked: bool)
      requires Valid() && 0 <= y && 0 <= i && y + i < mapH && 0 <= x < 8 * mapW
      ensures marked <==> MacroPos(mapW, x, y, i) in bits
    {
      IndexInMap(mapW, mapH, y, i, x);
      var k := mapW * y + i + x / 8;
      marked := TestBit(data[..][k], x % 8);
    }

    method UnmarkArea(a: LvArea)
      requires Valid() && Addressable(a)
      modifies data, this`bits
      ensures Valid() && bits == old(bits) - Literal(Page(), a.ToRect())
    {
      var x, y, w, h := a.x1, a.y1, a.Width(), a.Height();
      ghost var start := MacroPos(mapW, x, y, 0);
      MacroStart(Page(), x, y);
      var i := 0;
      while i < h
        invariant 0 <= i && (0 < i ==> i <= h)
        invariant Valid() && bits == old(bits) - Scanned(start, 8, w, i, 0)
      {
        var j := 0;
        while j < w
          invariant 0 <= j && (0 < j ==> j <= w)
          invariant Valid() && bits == old(bits) - Scanned(start, 8, w, i, j)
        {
          EightRows(start, i);
          UnmarkMap(x + j, y, i);
          DropOne(old(bits), Scanned(start, 8, w, i, j), start + 8 * i + j);
          j := j + 1;
        }
        i := i + 1;
      }
      ScannedAll(start, 8, w, h, i);
    }

    method MarkArea(a: LvArea)
      requires Valid() && Addressable(a)
      modifies data, this`bits
      ensures Valid() && bits == old(bits) + Literal(Page(), a.ToRect())
    {
      var x, y, w, h := a.x1, a.y1, a.Width(), a.Height();
      ghost var start := MacroPos(mapW, x, y, 0);
      MacroStart(Page(), x, y);
      var i := 0;
      while i < h
        invariant 0 <= i && (0 < i ==> i <= h)
        invariant Valid() && bits == old(bits) + Scanned(start, 8, w, i, 0)
      {
        var j := 0;
        while j < w
          invariant 0 <= j && (0 < j ==> j <= w)
          invariant Valid() && bits == old(bits) + Scanned(start, 8, w, i, j)
        {
          EightRows(start, i);
          MarkMap(x + j, y, i);
          AddOne(old(bits), Scanned(start, 8, w, i, j), start + 8 * i + j);
          j := j + 1;
        }
        i := i + 1;
      }
      ScannedAll(start, 8, w, h, i);
    }

    /** Clearing a free area right after marking it brings back every byte of the map. */
    method MarkThenUnmark(a: LvArea)
      requires Valid() && TileFree(Page(), bits, a.ToRect())
      modifies data, this`bits
      ensures Valid() && bits == old(bits) && data[..] == old(data[..])
    {
      ghost var d0, r := data[..], a.ToRect();
      AreaZero(r);
      CeilEighth(cols);
      MarkArea(a);
      ghost var d1 := data[..];
      UnmarkArea(a);
      UnmarkRestores(Page(), r, old(bits), d0, d1, data[..]);
      assert bits == old(bits);
    }

    /** The edge test compares for equality only; starting inside the grid, that is enough
        to stop before any read outside the map. */
    method IsFreeArea(a: LvArea) returns (free: bool)
      requires Valid() && InGrid(cols, rows, Cell(a.x1, a.y1))
      ensures free <==> TileFree(Page(), bits, a.ToRect())
    {
      var x, y, w, h := a.x1, a.y1, a.Width(), a.Height();
      ghost var g, r, start := Page(), a.ToRect(), MacroPos(mapW, x, y, 0);
      MacroStart(g, x, y);
      CeilEighth(cols);
      var i := 0;
      while i < h
        invariant 0 <= i && (0 < i ==> i <= h)
        invariant 0 < i && 0 < w ==> y + i <= rows && x + w <= cols
        invariant ClearSoFar(start, 8, w, i, 0, bits)
      {
        var j := 0;
        while j < w
          invariant 0 <= j && (0 < j ==> j <= w)
          invariant 0 < j ==> x + j <= cols && y + i < rows
          invariant ClearSoFar(start, 8, w, i, j, bits)
        {
          if x + j == cols || y + i == rows {
            OverTheEdge(g, bits, r, i, j);
            return false;
          }
          EightRows(start, i);
          var marked := ReadMap(x + j, y, i);
          if marked {
            MarkedInside(g, bits, r, i, j);
            return false;
          }
          j := j + 1;
        }
        i := i + 1;
      }
      AllClear(g, bits, r, i);
      return true;
    }

    /** First fit over all anchors of the page. */
    method NewItem(cols: int, rows: int, pad: bool) returns (r: Item)
      requires Valid()
      modifies data, this`children, this`bits
      ensures Valid()
      ensures var choice := TileChoice(Page(), old(bits), Size(cols, rows));
              && bits == TileMark(Page(), old(bits), choice)
              && r == (match choice
                       case None => Null
                       case Some(cell) => if pad then Padding else Object(cell))
              && children == old(children) + (if r.Object? then [r.cell] else [])
    {
      ghost var anchors := TileAnchors(Page(), bits, Size(cols, rows));
      var i := 0;
      while i < this.rows
        invariant 0 <= i <= this.rows
        invariant Valid() && bits == old(bits) && children == old(children)
        invariant forall c :: c in anchors ==> i <= c.y
      {
        var j := 0;
        while j < this.cols
          invariant 0 <= j <= this.cols
          invariant Valid() && bits == old(bits) && children == old(children)
          invariant forall c :: c in anchors ==> c == Cell(j, i) || Before(Cell(j, i), c)
        {
          var area := LvArea(j, i, j + cols - 1, i + rows - 1);
          assert area.ToRect() == At(Cell(j, i), Size(cols, rows));
          var free := IsFreeArea(area);
          if free {
            ChoiceFound(Page(), bits, Size(cols, rows), Cell(j, i));
            AreaZero(area.ToRect());
            CeilEighth(this.cols);
            MarkArea(area);
            if pad {
              return Padding;
            }
            var cell := Rect(j, i, cols, rows);
            children := children + [cell];
            return Object(cell);
          }
          j := j + 1;
        }
        i := i + 1;
      }
      assert anchors == {};
      return Null;
    }
  }

  /** A cell of the rectangle on the first column or row beyond the page, or a marked one, refutes
      that it is free; without one, it is. */
  lemma OverTheEdge(g: Grid, bits: set<int>, r: Rect, i: int, j: int)
    requires 0 <= i < r.h && 0 <= j < r.w && (r.x + j == g.cols || r.y + i == g.rows)
    ensures !TileFree(g, bits, r)
  {
    AreaZero(r);
  }

  lemma MarkedInside(g: Grid, bits: set<int>, r: Rect, i: int, j: int)
    requires 0 <= i < r.h && 0 <= j < r.w
    requires RowStart(Pos(g.Stride(), Cell(r.x, r.y)), 8, i) + j in bits
    ensures !TileFree(g, bits, r)
  {
    Hit(Pos(g.Stride(), Cell(r.x, r.y)), 8, r.w, r.h, i, j, bits);
  }

  lemma AllClear(g: Grid, bits: set<int>, r: Rect, i: int)
    requires 0 <= i && r.h <= i && (0 < i ==> i <= r.h) && InGrid(g.cols, g.rows, Cell(r.x, r.y))
    requires ClearSoFar(Pos(g.Stride(), Cell(r.x, r.y)), 8, r.w, i, 0, bits)
    requires 0 < r.w && 0 < r.h ==> r.x + r.w <= g.cols && r.y + r.h <= g.rows
    ensures TileFree(g, bits, r)
  {
    var start := Pos(g.Stride(), Cell(r.x, r.y));
    AreaZero(r);
    ScannedAll(start, 8, r.w, r.h, i);
    ClearIsDisjoint(start, 8, r.w, i, 0, bits);
  }

  /** The first anchor that passes the test is the choice. */
  lemma ChoiceFound(g: Grid, bits: set<int>, s: Size, c: Cell)
    requires TileFree(g, bits, At(c, s)) && InGrid(g.cols, g.rows, c)
    requires forall d :: d in TileAnchors(g, bits, s) ==> d == c || Before(c, d)
    ensures TileChoice(g, bits, s) == Some(At(c, s))
  {
    var anchors := TileAnchors(g, bits, s);
    assert c in anchors;
    LeastUnique(anchors, Least(anchors), Some(c));
  }

  /** Clearing a rectangle right after marking it restores every byte, provided the code's own
      test found it free; no condition on the page width is needed. */
  lemma UnmarkRestores(g: Grid, r: Rect, bits: set<int>, d0: seq<Byte>, d1: seq<Byte>, d2: seq<Byte>)
    requires Shows(d0, bits) && TileFree(g, bits, r)
    requires |d1| == |d0| && Shows(d1, bits + Literal(g, r))
    requires |d2| == |d1| && Shows(d2, bits + Literal(g, r) - Literal(g, r))
    ensures d2 == d0
  {
    assert bits + Literal(g, r) - Literal(g, r) == bits;
    BufferDetermined(d2, d0, bits);
  }
}
