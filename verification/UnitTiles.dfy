/** One-tile items on a grid: first fit takes the cells in row-major order. */
module UnitTiles {
  import opened Geometry
  import opened LinearBuffer

  const ONE := Size(1, 1)

  /** The k-th tile of a grid in row-major order. */
  function Tile(cols: nat, k: nat): Rect
    requires 0 < cols
  {
    Rect(k % cols, k / cols, 1, 1)
  }

  function Tiles(cols: nat, k: nat): (s: seq<Rect>)
    requires 0 < cols
    ensures |s| == k && forall i :: 0 <= i < k ==> s[i] == Tile(cols, i)
  {
    seq(k, i requires 0 <= i => Tile(cols, i))
  }

  /** The first k cells in row-major order. */
  ghost predicate FirstCells(cols: nat, rows: nat, occ: set<Cell>, k: nat) {
    forall c: Cell :: InGrid(cols, rows, c) ==> (c in occ <==> Pos(cols, c) < k)
  }

  lemma TilePos(cols: nat, rows: nat, k: nat)
    requires 0 < cols && k < cols * rows
    ensures var t := Tile(cols, k); InGrid(cols, rows, Cell(t.x, t.y)) && Pos(cols, Cell(t.x, t.y)) == k
  {
    var q := k / cols;
    assert k == cols * q + k % cols;
    if q >= rows {
      MulMono(rows, q, cols);
    }
  }

  lemma PosOrder(cols: nat, a: Cell, b: Cell)
    requires 0 <= a.x < cols && 0 <= b.x < cols
    ensures Pos(cols, a) < Pos(cols, b) <==> Before(a, b)
    ensures Pos(cols, a) == Pos(cols, b) <==> a == b
  {
    RowSegment(cols, a, 0, b.y, cols);
    if a.y < b.y {
      MulMono(a.y + 1, b.y, cols);
      assert cols * (a.y + 1) == cols * a.y + cols;
    } else if b.y < a.y {
      MulMono(b.y + 1, a.y, cols);
      assert cols * (b.y + 1) == cols * b.y + cols;
    }
  }

  lemma PosBound(cols: nat, rows: nat, c: Cell)
    requires InGrid(cols, rows, c)
    ensures 0 <= Pos(cols, c) < cols * rows
  {
    MulMono(c.y + 1, rows, cols);
    assert cols * (c.y + 1) == cols * c.y + cols && cols * rows == rows * cols;
    assert 0 <= cols * c.y;
  }

  /** With the first k cells taken, the next one-tile item goes to tile k, or nowhere. */
  lemma NextTile(cols: nat, rows: nat, occ: set<Cell>, k: nat)
    requires 0 < cols && k <= cols * rows && FirstCells(cols, rows, occ, k)
    ensures FirstFit(cols, rows, occ, ONE)
         == if k < cols * rows then Some(Cell(Tile(cols, k).x, Tile(cols, k).y)) else None
  {
    var all := Anchors(cols, rows, occ, ONE);
    forall c: Cell
      ensures c in all <==> InGrid(cols, rows, c) && k <= Pos(cols, c)
    {
      assert c == Cell(c.x, c.y);
      assert InRect(At(c, ONE), c);
      assert forall d: Cell :: InRect(At(c, ONE), d) ==> d == c;
    }
    if k < cols * rows {
      var t := Cell(Tile(cols, k).x, Tile(cols, k).y);
      TilePos(cols, rows, k);
      forall c | c in all
        ensures c == t || Before(t, c)
      {
        PosOrder(cols, t, c);
      }
      LeastUnique(all, Least(all), Some(t));
    } else {
      forall c: Cell
        ensures c !in all
      {
        if InGrid(cols, rows, c) {
          PosBound(cols, rows, c);
        }
      }
      assert all == {};
    }
  }

  lemma TakeTile(cols: nat, rows: nat, occ: set<Cell>, k: nat)
    requires 0 < cols && k < cols * rows && FirstCells(cols, rows, occ, k)
    ensures FirstCells(cols, rows, occ + Cells(Tile(cols, k)), k + 1)
  {
    var t := Tile(cols, k);
    TilePos(cols, rows, k);
    forall c: Cell | InGrid(cols, rows, c)
      ensures c in occ + Cells(t) <==> Pos(cols, c) < k + 1
    {
      CellsMember(t, c);
      PosOrder(cols, c, Cell(t.x, t.y));
    }
  }

  function Min(a: int, b: int): int {
    if a < b then a else b
  }

  lemma QuotientUnique(a: nat, n: nat, q: nat, r: nat)
    requires 0 < n && a == q * n + r && r < n
    ensures a / n == q && a % n == r
  {
    var d := a / n - q;
    assert a == (a / n) * n + a % n;
    assert d * n == r - a % n;
    if d >= 1 {
      MulMono(1, d, n);
    } else if d <= -1 {
      MulMono(1, -d, n);
    }
  }

  lemma QuotientBelow(k: nat, n: nat, total: nat)
    requires 0 < n && k < total * n
    ensures k / n < total && (k / n) * n + k % n == k
  {
    if k / n >= total {
      MulMono(total, k / n, n);
    }
  }
}
