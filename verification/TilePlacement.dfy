/** Runs of placement requests on one page, against the reference allocator. */
module TilePlacement {
  import opened Geometry
  import opened LinearBuffer
  import opened TileMap

  /** The page after a list of requests: its bits and the answer to every request. */
  datatype TileRun = TileRun(bits: set<int>, out: seq<Option<Rect>>)

  ghost function Place(g: Grid, sizes: seq<Size>): (r: TileRun)
    ensures |r.out| == |sizes|
  {
    if sizes == [] then TileRun({}, [])
    else
      var n := |sizes| - 1;
      var prev := Place(g, sizes[..n]);
      var choice := TileChoice(g, prev.bits, sizes[n]);
      TileRun(TileMark(g, prev.bits, choice), prev.out + [choice])
  }

  predicate AllSound(g: Grid, sizes: seq<Size>) {
    forall i :: 0 <= i < |sizes| ==> Sound(g, sizes[i].h)
  }

  ghost function Anchored(a: Option<Cell>, s: Size): Option<Rect> {
    match a
    case None => None
    case Some(c) => Some(At(c, s))
  }

  /** A single request is answered by exact first fit, None meaning that nothing fits. */
  lemma ChoiceIsFirstFit(g: Grid, bits: set<int>, s: Size)
    requires Sound(g, s.h)
    ensures TileChoice(g, bits, s) == Anchored(FirstFit(g.cols, g.rows, Occ(g, bits), s), s)
  {
    forall x: int, y: int
      ensures TileFree(g, bits, At(Cell(x, y), s)) <==> Fits(g.cols, g.rows, Occ(g, bits), At(Cell(x, y), s))
    {
      FreeIsFits(g, bits, At(Cell(x, y), s));
    }
    assert TileAnchors(g, bits, s) == Anchors(g.cols, g.rows, Occ(g, bits), s);
  }

  lemma ChoiceFree(g: Grid, bits: set<int>, s: Size)
    ensures var c := TileChoice(g, bits, s);
            c.Some? ==> TileFree(g, bits, c.value) && c.value.w == s.w && c.value.h == s.h
  {
  }

  /** For a size that fits an empty page, first fit is exact for every map content iff the
      page is at most eight columns wide or the size has one row. */
  lemma ChoiceExactIff(g: Grid, s: Size)
    requires 1 <= s.w <= g.cols && 1 <= s.h <= g.rows
    ensures (forall bits: set<int> ::
               TileChoice(g, bits, s) == Anchored(FirstFit(g.cols, g.rows, Occ(g, bits), s), s))
       <==> Sound(g, s.h)
  {
    if Sound(g, s.h) {
      forall bits: set<int>
        ensures TileChoice(g, bits, s) == Anchored(FirstFit(g.cols, g.rows, Occ(g, bits), s), s)
      {
        ChoiceIsFirstFit(g, bits, s);
      }
    } else {
      var r := At(Cell(0, 0), s);
      var far := Cell(s.w - 1, s.h - 1);
      var bits := {Pos(g.Stride(), far)};
      AreaZero(r);
      LastCellMissed(g, r);
      assert TileFree(g, bits, r) && Cell(0, 0) in TileAnchors(g, bits, s);
      LeastUnique(TileAnchors(g, bits, s), Least(TileAnchors(g, bits, s)), Some(Cell(0, 0)));
      assert TileChoice(g, bits, s) == Some(r);
      OccupiedMember(g.Stride(), g.rows, bits, far);
      assert InRect(r, far) && !Fits(g.cols, g.rows, Occ(g, bits), r);
      FirstFitMeaning(g.cols, g.rows, Occ(g, bits), s);
    }
  }

  /** Every run of sound requests is the reference run. */
  lemma {:induction false} RunIsReference(g: Grid, sizes: seq<Size>)
    requires AllSound(g, sizes)
    ensures var t, r := Place(g, sizes), Allocate(g.cols, g.rows, sizes);
            t.out == r.out && Occ(g, t.bits) == r.occ
  {
    if sizes == [] {
      assert Occ(g, {}) == {};
    } else {
      var n := |sizes| - 1;
      RunIsReference(g, sizes[..n]);
      var prev := Place(g, sizes[..n]);
      ChoiceIsFirstFit(g, prev.bits, sizes[n]);
      ChoiceFree(g, prev.bits, sizes[n]);
      var choice := TileChoice(g, prev.bits, sizes[n]);
      if choice.Some? {
        MarkAddsCells(g, prev.bits, choice.value);
      }
    }
  }

  /** Sound runs never overlap, stay on the page, and the set bits count the placed area. */
  lemma {:induction false} RunPacked(g: Grid, sizes: seq<Size>)
    requires AllSound(g, sizes)
    ensures var t := Place(g, sizes);
            Packed(g.cols, g.rows, t.out) && |t.bits| == TotalArea(t.out)
  {
    RunIsReference(g, sizes);
    AllocatePacked(g.cols, g.rows, sizes);
    BitsCount(g, sizes);
  }

  lemma {:induction false} BitsCount(g: Grid, sizes: seq<Size>)
    requires AllSound(g, sizes)
    ensures |Place(g, sizes).bits| == TotalArea(Place(g, sizes).out)
  {
    if sizes != [] {
      var n := |sizes| - 1;
      BitsCount(g, sizes[..n]);
      var prev, last := Place(g, sizes[..n]), Place(g, sizes);
      var choice := TileChoice(g, prev.bits, sizes[n]);
      ChoiceFree(g, prev.bits, sizes[n]);
      assert last.out[..n] == prev.out;
      if choice.Some? {
        LiteralSize(g, choice.value);
        UnionSize(Literal(g, choice.value), prev.bits);
        assert last.bits == Literal(g, choice.value) + prev.bits;
      }
    }
  }

  lemma LiteralSize(g: Grid, r: Rect)
    requires Sound(g, r.h) && InGrid(g.cols, g.rows, Cell(r.x, r.y)) && Inside(g, r)
    ensures |Literal(g, r)| == Area(r)
  {
    AreaZero(r);
    if Area(r) == 0 {
      EmptyStrided(Pos(g.Stride(), Cell(r.x, r.y)), 8, r.w, r.h);
    } else {
      StridedSize(Pos(g.Stride(), Cell(r.x, r.y)), 8, r.w, r.h);
    }
  }

  lemma PlaceOneMore(g: Grid, sizes: seq<Size>, s: Size)
    ensures var prev, choice := Place(g, sizes), TileChoice(g, Place(g, sizes).bits, s);
            Place(g, sizes + [s]) == TileRun(TileMark(g, prev.bits, choice), prev.out + [choice])
  {
    assert (sizes + [s])[..|sizes|] == sizes;
  }

  lemma WideFirst(g: Grid)
    requires 8 < g.cols && 1 < g.rows
    ensures TileChoice(g, {}, Size(1, 2)) == Some(Rect(0, 0, 1, 2))
  {
    var s := Size(1, 2);
    assert TileFree(g, {}, At(Cell(0, 0), s));
    assert Cell(0, 0) in TileAnchors(g, {}, s);
    LeastUnique(TileAnchors(g, {}, s), Least(TileAnchors(g, {}, s)), Some(Cell(0, 0)));
  }

  lemma WideSecond(g: Grid)
    requires 8 < g.cols && 1 < g.rows
    ensures TileChoice(g, {0, 8}, Size(g.cols, 1)) == Some(Rect(0, 1, g.cols, 1))
  {
    var s := Size(g.cols, 1);
    var anchors := TileAnchors(g, {0, 8}, s);
    OneRowRun(g, At(Cell(0, 0), s));
    assert 0 in Literal(g, At(Cell(0, 0), s));
    assert Cell(0, 0) !in anchors;
    SecondRowClear(g);
    assert Cell(0, 1) in anchors;
    forall c | c in anchors
      ensures c == Cell(0, 1) || Before(Cell(0, 1), c)
    {
      FullWidth(g, c);
    }
    LeastUnique(anchors, Least(anchors), Some(Cell(0, 1)));
  }

  lemma SecondRowClear(g: Grid)
    requires 8 < g.cols && 1 < g.rows
    ensures TileFree(g, {0, 8}, At(Cell(0, 1), Size(g.cols, 1)))
  {
    OneRowRun(g, At(Cell(0, 1), Size(g.cols, 1)));
  }

  lemma FullWidth(g: Grid, c: Cell)
    requires InGrid(g.cols, g.rows, c) && Inside(g, At(c, Size(g.cols, 1)))
    ensures c.x == 0
  {
    AreaZero(At(c, Size(g.cols, 1)));
  }

  /** On a page of more than eight columns and more than one row, a two-row item followed by
      a full-width one-row item overlap: the second is put on row 1, over the first. */
  lemma WidePageOverlaps(g: Grid)
    requires 8 < g.cols && 1 < g.rows
    ensures var out := Place(g, [Size(1, 2), Size(g.cols, 1)]).out;
            && out == [Some(Rect(0, 0, 1, 2)), Some(Rect(0, 1, g.cols, 1))]
            && !Packed(g.cols, g.rows, out)
  {
    var first, second := Size(1, 2), Size(g.cols, 1);
    WideFirst(g);
    WideSecond(g);
    TwoBytes(g, Rect(0, 0, 1, 2));
    PlaceOneMore(g, [], first);
    PlaceOneMore(g, [first], second);
    assert [] + [first] == [first] && [first] + [second] == [first, second];
    assert {} + {0, 8} == {0, 8};
    assert InRect(Rect(0, 0, 1, 2), Cell(0, 1)) && InRect(Rect(0, 1, g.cols, 1), Cell(0, 1));
    var out := Place(g, [first, second]).out;
    assert out[0].Some? && out[1].Some? && !Disjoint(out[0].value, out[1].value);
  }

  lemma TwoBytes(g: Grid, r: Rect)
    requires r == Rect(0, 0, 1, 2)
    ensures Literal(g, r) == {0, 8}
  {
    assert Strided(0, 8, 1, 0) == {};
    assert Strided(0, 8, 1, 1) == {0};
    assert RowStart(0, 8, 1) == 8;
  }

  lemma OneRowRun(g: Grid, r: Rect)
    requires r.h == 1
    ensures Literal(g, r) == Run(Pos(g.Stride(), Cell(r.x, r.y)), r.w)
  {
    assert Strided(Pos(g.Stride(), Cell(r.x, r.y)), 8, r.w, 0) == {};
  }

  /** Which pages are safe for every list of requests: exactly those of at most eight columns
      or at most one row. */
  lemma SafePages(g: Grid)
    ensures (forall sizes: seq<Size> :: Packed(g.cols, g.rows, Place(g, sizes).out))
       <==> g.cols <= 8 || g.rows <= 1
  {
    if g.cols <= 8 || g.rows <= 1 {
      forall sizes: seq<Size>
        ensures Packed(g.cols, g.rows, Place(g, sizes).out)
      {
        RunPacked(g, sizes);
      }
    } else {
      WidePageOverlaps(g);
    }
  }
}
