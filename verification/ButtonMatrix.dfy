/** The button matrix: one integer per cell, searched over the anchors that fit. */
module ButtonMatrix {
  import opened Geometry
  import opened LinearBuffer
  import opened TileMap
  import opened TilePlacement

  /** A button asks for a size, or for an explicit area when both sizes are zero. */
  datatype Button = Button(size: Size, x1: int, y1: int, x2: int, y2: int)

  /** What becomes of a button. */
  datatype Outcome =
    | TooLarge
    | NoEmptyArea
    | Auto(cell: Rect)
    | Explicit(area: Rect)

  /** The nonzero entries of the map are exactly the indices in `taken`. */
  ghost predicate MapShows(a: seq<int>, taken: set<int>) {
    && (forall p :: p in taken ==> 0 <= p < |a|)
    && (forall k :: 0 <= k < |a| ==> (a[k] != 0 <==> k in taken))
  }

  /** The rectangle's entries lie in the map, or there are none. */
  ghost predicate InMap(len: int, off: int, w: int, h: int, stride: int) {
    w <= 0 || h <= 0 || (0 <= off && 0 <= stride && RowStart(off, stride, h - 1) + w <= len)
  }

  lemma EntryInMap(len: int, off: int, w: int, h: int, stride: int, i: int, j: int)
    requires InMap(len, off, w, h, stride) && 0 <= i < h && 0 <= j < w
    ensures 0 <= off + i * stride + j < len && off + i * stride == RowStart(off, stride, i)
  {
    RowStartIs(off, stride, i);
    RowStartMono(off, stride, i, h - 1);
    RowStartGrows(off, stride, i);
  }

  /** area_empty on the map from entry `off` on. */
  method AreaEmpty(cells: array<int>, ghost taken: set<int>, off: int, w: int, h: int, stride: int) returns (empty: bool)
    requires MapShows(cells[..], taken) && InMap(cells.Length, off, w, h, stride)
    ensures empty <==> Strided(off, stride, w, h) !! taken
  {
    var i := 0;
    while i < h
      invariant 0 <= i && (0 < i ==> i <= h)
      invariant Scanned(off, stride, w, i, 0) !! taken
    {
      var j := 0;
      while j < w
        invariant 0 <= j && (0 < j ==> j <= w)
        invariant Scanned(off, stride, w, i, j) !! taken
      {
        EntryInMap(cells.Length, off, w, h, stride, i, j);
        if cells[..][off + i * stride + j] != 0 {
          Hit(off, stride, w, h, i, j, taken);
          return false;
        }
        j := j + 1;
      }
      i := i + 1;
    }
    ScannedAll(off, stride, w, h, i);
    return true;
  }

  /** area_fill on the map from entry `off` on. */
  method AreaFill(cells: array<int>, ghost taken: set<int>, off: int, w: int, h: int, stride: int)
    requires MapShows(cells[..], taken) && InMap(cells.Length, off, w, h, stride)
    modifies cells
    ensures MapShows(cells[..], taken + Strided(off, stride, w, h))
  {
    var i := 0;
    while i < h
      invariant 0 <= i && (0 < i ==> i <= h)
      invariant MapShows(cells[..], taken + Scanned(off, stride, w, i, 0))
    {
      var j := 0;
      while j < w
        invariant 0 <= j && (0 < j ==> j <= w)
        invariant MapShows(cells[..], taken + Scanned(off, stride, w, i, j))
      {
        EntryInMap(cells.Length, off, w, h, stride, i, j);
        ghost var before := cells[..];
        cells[off + i * stride + j] := 1;
        assert cells[..] == before[off + i * stride + j := 1];
        AddOne(taken, Scanned(off, stride, w, i, j), off + i * stride + j);
        j := j + 1;
      }
      i := i + 1;
    }
    ScannedAll(off, stride, w, h, i);
  }

  /** The anchors the search visits and finds empty. */
  ghost function MatrixAnchors(cols: int, rows: int, taken: set<int>, s: Size): set<Cell> {
    set x: int, y: int | 0 <= x <= cols - s.w && 0 <= y <= rows - s.h
                      && Strided(Pos(cols, Cell(x, y)), cols, s.w, s.h) !! taken :: Cell(x, y)
  }

  /** The answer to one button, given the taken entries. */
  ghost function Answer(cols: int, rows: int, taken: set<int>, b: Button): Outcome {
    if b.size.w > cols || b.size.h > rows then TooLarge
    else if b.size.w != 0 || b.size.h != 0 then
      match Least(MatrixAnchors(cols, rows, taken, b.size))
      case None => NoEmptyArea
      case Some(a) => Auto(At(a, b.size))
    else Explicit(Rect(b.x1, b.y1, b.x2 - b.x1, b.y2 - b.y1))
  }

  ghost function TakenAfter(cols: int, taken: set<int>, o: Outcome): set<int> {
    match o
    case Auto(r) => taken + Strided(Pos(cols, Cell(r.x, r.y)), cols, r.w, r.h)
    case _ => taken
  }

  datatype Matrix = Matrix(taken: set<int>, out: seq<Outcome>)

  ghost function Arrange(cols: int, rows: int, btns: seq<Button>): (m: Matrix)
    ensures |m.out| == |btns|
  {
    if btns == [] then Matrix({}, [])
    else
      var n := |btns| - 1;
      var prev := Arrange(cols, rows, btns[..n]);
      var o := Answer(cols, rows, prev.taken, btns[n]);
      Matrix(TakenAfter(cols, prev.taken, o), prev.out + [o])
  }

  lemma ArrangeOneMore(cols: int, rows: int, btns: seq<Button>, b: Button)
    ensures var prev := Arrange(cols, rows, btns);
            var o := Answer(cols, rows, prev.taken, b);
            Arrange(cols, rows, btns + [b]) == Matrix(TakenAfter(cols, prev.taken, o), prev.out + [o])
  {
    assert (btns + [b])[..|btns|] == btns;
  }

  /** A descriptor's track count: its length up to the terminator, at most 100. */
  ghost predicate IsTracks(dsc: seq<int>, last: int, r: Option<nat>) {
    match r
    case Some(n) => n <= 100 && n < |dsc| && dsc[n] == last && forall i :: 0 <= i < n ==> dsc[i] != last
    case None => 101 <= |dsc| && forall i :: 0 <= i < 101 ==> dsc[i] != last
  }

  /** The one count there is for a descriptor that ends, or is long enough to be refused. */
  ghost function Tracks(dsc: seq<int>, last: int): (r: Option<nat>)
    requires last in dsc || 101 <= |dsc|
    ensures IsTracks(dsc, last, r)
  {
    TracksFrom(dsc, last, 0)
  }

  ghost function TracksFrom(dsc: seq<int>, last: int, n: nat): (r: Option<nat>)
    requires last in dsc || 101 <= |dsc|
    requires n <= 101 && n <= |dsc| && forall i :: 0 <= i < n ==> dsc[i] != last
    ensures IsTracks(dsc, last, r)
    decreases 101 - n
  {
    if n == 101 then None
    else if dsc[n] == last then Some(n)
    else TracksFrom(dsc, last, n + 1)
  }

  /** What becomes of a button of a list, by its size alone: one that exceeds the grid is too large,
      one of no size gets the area between its corners, any other keeps its size if it is placed. */
  ghost predicate FitsKind(cols: int, rows: int, b: Button, o: Outcome) {
    && (o.TooLarge? <==> b.size.w > cols || b.size.h > rows)
    && (o.Explicit? <==> b.size == Size(0, 0))
    && (o.Explicit? ==> o.area.x == b.x1 && o.area.x + o.area.w == b.x2
                        && o.area.y == b.y1 && o.area.y + o.area.h == b.y2)
    && (o.Auto? ==> o.cell.w == b.size.w && o.cell.h == b.size.h)
  }

  lemma {:induction false} OutcomeKinds(cols: nat, rows: nat, btns: seq<Button>, i: nat)
    requires i < |btns|
    ensures FitsKind(cols, rows, btns[i], Arrange(cols, rows, btns).out[i])
    decreases |btns|
  {
    var n := |btns| - 1;
    var prev := Arrange(cols, rows, btns[..n]);
    if i < n {
      OutcomeKinds(cols, rows, btns[..n], i);
    } else {
      assert FitsKind(cols, rows, btns[n], Answer(cols, rows, prev.taken, btns[n]));
    }
  }

  lemma TracksUnique(dsc: seq<int>, last: int, a: Option<nat>, b: Option<nat>)
    requires IsTracks(dsc, last, a) && IsTracks(dsc, last, b)
    ensures a == b
  {
    if a.Some? {
      assert dsc[a.value] == last;
    }
    if b.Some? {
      assert dsc[b.value] == last;
    }
  }

  /** The counting loops: the terminator, or 101 entries, must be there to be read. */
  method CountTracks(dsc: seq<int>, last: int) returns (r: Option<nat>)
    requires last in dsc || 101 <= |dsc|
    ensures IsTracks(dsc, last, r) && r == Tracks(dsc, last)
  {
    var n := 0;
    while dsc[n] != last
      invariant 0 <= n <= 100 && n < |dsc| && forall i :: 0 <= i < n ==> dsc[i] != last
      decreases 100 - n
    {
      n := n + 1;
      if n > 100 {
        TracksUnique(dsc, last, None, Tracks(dsc, last));
        return None;
      }
    }
    TracksUnique(dsc, last, Some(n), Tracks(dsc, last));
    return Some(n);
  }

  /** The search loops: rows first, over the anchors at which the size stays in the grid. */
  method FindEmpty(cells: array<int>, ghost taken: set<int>, cols: nat, rows: nat, s: Size)
    returns (found: bool, x: int, y: int)
    requires MapShows(cells[..], taken) && cells.Length == cols * rows
    ensures Least(MatrixAnchors(cols, rows, taken, s)) == if found then Some(Cell(x, y)) else None
    ensures found ==> 0 <= x <= cols - s.w && 0 <= y <= rows - s.h
  {
    ghost var anchors := MatrixAnchors(cols, rows, taken, s);
    found := false;
    x, y := 0, 0;
    var r := 0;
    while r <= rows - s.h
      invariant 0 <= r && !found
      invariant forall c :: c in anchors ==> r <= c.y
      decreases rows - s.h - r
    {
      var c := 0;
      while c <= cols - s.w
        invariant 0 <= c && !found
        invariant forall a :: a in anchors ==> a == Cell(c, r) || Before(Cell(c, r), a)
        decreases cols - s.w - c
      {
        AnchorInMap(cols, rows, s.w, s.h, c, r);
        var empty := AreaEmpty(cells, taken, r * cols + c, s.w, s.h, cols);
        if empty {
          assert Cell(c, r) in anchors;
          x, y := c, r;
          found := true;
          break;
        }
        assert Cell(c, r) !in anchors;
        c := c + 1;
      }
      if found {
        LeastUnique(anchors, Least(anchors), Some(Cell(x, y)));
        break;
      }
      r := r + 1;
    }
    if !found {
      assert anchors == {};
    }
  }

  /** The search and fill for one sized button. */
  method PlaceButton(cells: array<int>, ghost taken: set<int>, cols: nat, rows: nat, s: Size) returns (o: Outcome)
    requires MapShows(cells[..], taken) && cells.Length == cols * rows
    requires s.w <= cols && s.h <= rows
    modifies cells
    ensures o == (match Least(MatrixAnchors(cols, rows, taken, s))
                  case None => NoEmptyArea
                  case Some(a) => Auto(At(a, s)))
    ensures MapShows(cells[..], TakenAfter(cols, taken, o))
  {
    var found, x, y := FindEmpty(cells, taken, cols, rows, s);
    if !found {
      return NoEmptyArea;
    }
    AnchorInMap(cols, rows, s.w, s.h, x, y);
    AreaFill(cells, taken, y * cols + x, s.w, s.h, cols);
    return Auto(Rect(x, y, s.w, s.h));
  }

  lemma AnchorInMap(cols: nat, rows: nat, w: int, h: int, x: int, y: int)
    requires 0 <= x <= cols - w && 0 <= y <= rows - h
    ensures InMap(cols * rows, y * cols + x, w, h, cols) && y * cols + x == Pos(cols, Cell(x, y))
  {
    if w > 0 && h > 0 {
      RowStartPos(cols, x, y, h - 1);
      MulMono(y + h, rows, cols);
      assert cols * (y + h - 1) + cols == cols * (y + h);
    }
  }

  /** ui_btnmatrix_create: count the tracks, then deal with the buttons in order. None is the
      null result for a descriptor of more than 100 tracks. */
  method UiBtnmatrixCreate(colDsc: seq<int>, rowDsc: seq<int>, last: int, btns: seq<Button>)
    returns (r: Option<seq<Outcome>>)
    requires last in colDsc || 101 <= |colDsc|
    requires last in rowDsc || 101 <= |rowDsc|
    ensures var cols, rows := Tracks(colDsc, last), Tracks(rowDsc, last);
            r == if cols.Some? && rows.Some? then Some(Arrange(cols.value, rows.value, btns).out) else None
  {
    var cols := CountTracks(colDsc, last);
    if cols == None {
      return None;
    }
    var rows := CountTracks(rowDsc, last);
    if rows == None {
      return None;
    }
    var out := ArrangeButtons(cols.value, rows.value, btns);
    return Some(out);
  }

  /** The body of the button loop. */
  method DealWithButton(cells: array<int>, ghost taken: set<int>, cols: nat, rows: nat, b: Button) returns (o: Outcome)
    requires MapShows(cells[..], taken) && cells.Length == cols * rows
    modifies cells
    ensures o == Answer(cols, rows, taken, b) && MapShows(cells[..], TakenAfter(cols, taken, o))
  {
    if b.size.w > cols || b.size.h > rows {
      return TooLarge;
    }
    if b.size.w != 0 || b.size.h != 0 {
      o := PlaceButton(cells, taken, cols, rows, b.size);
    } else {
      o := Explicit(Rect(b.x1, b.y1, b.x2 - b.x1, b.y2 - b.y1));
    }
  }

  method ArrangeButtons(cols: nat, rows: nat, btns: seq<Button>) returns (out: seq<Outcome>)
    ensures out == Arrange(cols, rows, btns).out
  {
    var cells := new int[cols * rows](_ => 0);
    ghost var taken: set<int> := {};
    out := [];
    for i := 0 to |btns|
      invariant MapShows(cells[..], taken) && Matrix(taken, out) == Arrange(cols, rows, btns[..i])
    {
      ArrangeNext(cols, rows, btns, i, taken, out);
      var o := DealWithButton(cells, taken, cols, rows, btns[i]);
      taken := TakenAfter(cols, taken, o);
      out := out + [o];
    }
    assert btns[..|btns|] == btns;
  }

  lemma ArrangeNext(cols: int, rows: int, btns: seq<Button>, i: nat, taken: set<int>, out: seq<Outcome>)
    requires i < |btns| && Matrix(taken, out) == Arrange(cols, rows, btns[..i])
    ensures var o := Answer(cols, rows, taken, btns[i]);
            Arrange(cols, rows, btns[..i + 1]) == Matrix(TakenAfter(cols, taken, o), out + [o])
  {
    ArrangeOneMore(cols, rows, btns[..i], btns[i]);
    assert btns[..i] + [btns[i]] == btns[..i + 1];
  }

  /** The automatic placements among the outcomes. */
  function Placed(out: seq<Outcome>): (s: seq<Option<Rect>>)
    ensures |s| == |out|
    ensures forall i :: 0 <= i < |out| ==> s[i] == if out[i].Auto? then Some(out[i].cell) else None
  {
    seq(|out|, i requires 0 <= i < |out| => if out[i].Auto? then Some(out[i].cell) else None)
  }

  ghost function AsPlaced(o: Outcome): Option<Rect> {
    if o.Auto? then Some(o.cell) else None
  }

  /** For sizes of at least 1x1 the restricted search is exact first fit; a button is dropped
      exactly when no free rectangle of its size exists. */
  lemma AnswerIsFirstFit(cols: nat, rows: nat, taken: set<int>, b: Button)
    requires 1 <= b.size.w && 1 <= b.size.h
    ensures AsPlaced(Answer(cols, rows, taken, b))
         == Anchored(FirstFit(cols, rows, Occupied(cols, rows, taken), b.size), b.size)
    ensures !Answer(cols, rows, taken, b).Explicit?
  {
    var s := b.size;
    var occ := Occupied(cols, rows, taken);
    forall x: int, y: int
      ensures Fits(cols, rows, occ, At(Cell(x, y), s))
         <==> 0 <= x <= cols - s.w && 0 <= y <= rows - s.h && Strided(Pos(cols, Cell(x, y)), cols, s.w, s.h) !! taken
    {
      FitsIffMisses(cols, rows, taken, At(Cell(x, y), s));
    }
    if s.w > cols || s.h > rows {
      assert Anchors(cols, rows, occ, s) == {};
    } else {
      assert Anchors(cols, rows, occ, s) == MatrixAnchors(cols, rows, taken, s);
    }
  }

  lemma FitsIffMisses(cols: nat, rows: nat, taken: set<int>, r: Rect)
    requires 1 <= r.w && 1 <= r.h
    ensures Fits(cols, rows, Occupied(cols, rows, taken), r)
       <==> 0 <= r.x <= cols - r.w && 0 <= r.y <= rows - r.h
            && Strided(Pos(cols, Cell(r.x, r.y)), cols, r.w, r.h) !! taken
  {
    AreaZero(r);
    if InGrid(cols, rows, Cell(r.x, r.y)) {
      InsideIffCells(Grid(cols, rows), r);
      if Inside(Grid(cols, rows), r) {
        MissIffCellsFree(cols, rows, taken, r);
      }
    }
  }

  /** Both allocators choose alike on equal pictures: for every page, every request of at
      least 1x1 that the page handles soundly, and every pair of maps showing the same cells. */
  lemma {:induction false} AllocatorsAgree(g: Grid, bits: set<int>, taken: set<int>, b: Button)
    requires 1 <= b.size.w && 1 <= b.size.h && Sound(g, b.size.h)
    requires Occ(g, bits) == Occupied(g.cols, g.rows, taken)
    ensures TileChoice(g, bits, b.size) == AsPlaced(Answer(g.cols, g.rows, taken, b))
  {
    ChoiceIsFirstFit(g, bits, b.size);
    AnswerIsFirstFit(g.cols, g.rows, taken, b);
  }

  function Sizes(btns: seq<Button>): (s: seq<Size>)
    ensures |s| == |btns| && forall i :: 0 <= i < |btns| ==> s[i] == btns[i].size
  {
    seq(|btns|, i requires 0 <= i < |btns| => btns[i].size)
  }

  ghost function CellsTaken(o: Outcome): set<Cell> {
    if o.Auto? then Cells(o.cell) else {}
  }

  lemma PlacedGrows(out: seq<Outcome>, o: Outcome)
    ensures Placed(out + [o]) == Placed(out) + [AsPlaced(o)]
  {
  }

  /** One reference step, told by its answer. */
  lemma AllocateStep(cols: nat, rows: nat, sizes: seq<Size>, s: Size, answer: Option<Rect>)
    requires answer == Anchored(FirstFit(cols, rows, Allocate(cols, rows, sizes).occ, s), s)
    ensures var prev, next := Allocate(cols, rows, sizes), Allocate(cols, rows, sizes + [s]);
            && next.out == prev.out + [answer]
            && next.occ == prev.occ + (if answer.Some? then Cells(answer.value) else {})
  {
    assert (sizes + [s])[..|sizes|] == sizes;
  }

  /** A list of buttons of at least 1x1 is arranged as the reference allocator would. */
  lemma {:induction false} ArrangeIsReference(cols: nat, rows: nat, btns: seq<Button>)
    requires forall i :: 0 <= i < |btns| ==> 1 <= btns[i].size.w && 1 <= btns[i].size.h
    ensures var m, ref := Arrange(cols, rows, btns), Allocate(cols, rows, Sizes(btns));
            Placed(m.out) == ref.out && Occupied(cols, rows, m.taken) == ref.occ
  {
    if btns == [] {
      assert Occupied(cols, rows, {}) == {};
    } else {
      var n := |btns| - 1;
      ArrangeIsReference(cols, rows, btns[..n]);
      ReferenceStep(cols, rows, Sizes(btns[..n]), Arrange(cols, rows, btns[..n]), btns[n]);
      assert Sizes(btns) == Sizes(btns[..n]) + [btns[n].size];
    }
  }

  lemma ReferenceStep(cols: nat, rows: nat, sizes: seq<Size>, m: Matrix, b: Button)
    requires 1 <= b.size.w && 1 <= b.size.h
    requires var ref := Allocate(cols, rows, sizes); Placed(m.out) == ref.out && Occupied(cols, rows, m.taken) == ref.occ
    ensures var o, ref := Answer(cols, rows, m.taken, b), Allocate(cols, rows, sizes + [b.size]);
            && Placed(m.out + [o]) == ref.out
            && Occupied(cols, rows, TakenAfter(cols, m.taken, o)) == ref.occ
  {
    var o := Answer(cols, rows, m.taken, b);
    AnswerIsFirstFit(cols, rows, m.taken, b);
    MatrixTakes(cols, rows, m.taken, b);
    PlacedGrows(m.out, o);
    AllocateStep(cols, rows, sizes, b.size, AsPlaced(o));
  }

  /** An automatic placement takes exactly its cells; any other outcome takes none. */
  lemma MatrixTakes(cols: nat, rows: nat, taken: set<int>, b: Button)
    ensures var o := Answer(cols, rows, taken, b);
            Occupied(cols, rows, TakenAfter(cols, taken, o)) == Occupied(cols, rows, taken) + CellsTaken(o)
  {
    var o := Answer(cols, rows, taken, b);
    if o.Auto? {
      var r := o.cell;
      assert Cell(r.x, r.y) in MatrixAnchors(cols, rows, taken, b.size);
      if r.w <= 0 || r.h <= 0 {
        EmptyStrided(Pos(cols, Cell(r.x, r.y)), cols, r.w, r.h);
        assert Cells(r) == {};
        assert TakenAfter(cols, taken, o) == taken;
      } else {
        FillAddsCells(cols, rows, taken, r);
      }
    }
  }

  /** Whole runs of the two allocators agree. */
  lemma {:induction false} RunsAgree(g: Grid, btns: seq<Button>)
    requires forall i :: 0 <= i < |btns| ==> 1 <= btns[i].size.w && 1 <= btns[i].size.h
    requires AllSound(g, Sizes(btns))
    ensures Place(g, Sizes(btns)).out == Placed(Arrange(g.cols, g.rows, btns).out)
  {
    RunIsReference(g, Sizes(btns));
    ArrangeIsReference(g.cols, g.rows, btns);
  }

  /** For any list of buttons whatever, automatic placements never overlap and stay in the
      grid, and the map shows exactly their cells. */
  lemma {:induction false} ArrangePacked(cols: nat, rows: nat, btns: seq<Button>)
    ensures var m := Arrange(cols, rows, btns);
            && Packed(cols, rows, Placed(m.out))
            && forall c: Cell :: c in Occupied(cols, rows, m.taken) <==>
                 exists i :: 0 <= i < |m.out| && m.out[i].Auto? && InRect(m.out[i].cell, c)
  {
    if btns == [] {
      assert Occupied(cols, rows, {}) == {};
    } else {
      var n := |btns| - 1;
      ArrangePacked(cols, rows, btns[..n]);
      var prev, m := Arrange(cols, rows, btns[..n]), Arrange(cols, rows, btns);
      var o := Answer(cols, rows, prev.taken, btns[n]);
      MatrixTakes(cols, rows, prev.taken, btns[n]);
      assert m.out == prev.out + [o];
      if o.Auto? {
        NewPlacementIsFree(cols, rows, prev.taken, btns[n]);
      }
      forall c: Cell
        ensures c in Occupied(cols, rows, m.taken) <==>
                exists i :: 0 <= i < |m.out| && m.out[i].Auto? && InRect(m.out[i].cell, c)
      {
        if o.Auto? {
          CellsMember(o.cell, c);
        }
        if c in Occupied(cols, rows, prev.taken) {
          var i :| 0 <= i < n && prev.out[i].Auto? && InRect(prev.out[i].cell, c);
          assert m.out[i] == prev.out[i];
        }
        if o.Auto? && InRect(o.cell, c) {
          assert m.out[n].Auto?;
        }
      }
      PackedOneMore(cols, rows, prev.out, o);
    }
  }

  lemma NewPlacementIsFree(cols: nat, rows: nat, taken: set<int>, b: Button)
    requires Answer(cols, rows, taken, b).Auto?
    ensures var r := Answer(cols, rows, taken, b).cell;
            forall c: Cell :: InRect(r, c) ==> InGrid(cols, rows, c) && c !in Occupied(cols, rows, taken)
  {
    var r := Answer(cols, rows, taken, b).cell;
    assert Cell(r.x, r.y) in MatrixAnchors(cols, rows, taken, b.size);
    if 1 <= r.w && 1 <= r.h {
      FitsIffMisses(cols, rows, taken, r);
    }
  }

  lemma PackedOneMore(cols: nat, rows: nat, out: seq<Outcome>, o: Outcome)
    requires Packed(cols, rows, Placed(out))
    requires o.Auto? ==> forall c: Cell :: InRect(o.cell, c) ==>
               && InGrid(cols, rows, c)
               && forall i :: 0 <= i < |out| && out[i].Auto? ==> !InRect(out[i].cell, c)
    ensures Packed(cols, rows, Placed(out + [o]))
  {
    var all := Placed(out + [o]);
    forall i, j | 0 <= i < j < |all| && all[i].Some? && all[j].Some?
      ensures Disjoint(all[i].value, all[j].value)
    {
      if j < |out| {
        assert Placed(out)[i] == all[i] && Placed(out)[j] == all[j];
      } else {
        assert out[i].Auto? && out[i].cell == all[i].value;
      }
    }
    forall i | 0 <= i < |all| && all[i].Some?
      ensures forall c: Cell :: InRect(all[i].value, c) ==> InGrid(cols, rows, c)
    {
      if i < |out| {
        assert Placed(out)[i] == all[i];
      }
    }
  }
}
