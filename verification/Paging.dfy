/** The paging loops of the smart-home and intercom pages over tile layouts. */
module Paging {
  import opened Geometry
  import opened TileMap
  import opened TilePlacement
  import opened Paginator
  import T = TileLayout

  /** An app occupies a rectangle of tiles; one without an init function is padding. */
  datatype App = App(size: Size, init: bool)

  function Sizes(apps: seq<App>): (s: seq<Size>)
    ensures |s| == |apps| && forall i :: 0 <= i < |apps| ==> s[i] == apps[i].size
  {
    seq(|apps|, i requires 0 <= i < |apps| => apps[i].size)
  }

  /** A tile page's answer to one request. */
  ghost function Request(g: Grid, run: TileRun, s: Size): Option<TileRun> {
    var choice := TileChoice(g, run.bits, s);
    if choice == None then None
    else Some(TileRun(TileMark(g, run.bits, choice), run.out + [choice]))
  }

  /** The pager answers every request as a tile page of this grid does. */
  ghost predicate Answering(p: Pager<TileRun>, g: Grid) {
    && p.blank == TileRun({}, [])
    && forall run: TileRun, s: Size {:trigger Request(g, run, s)} :: p.ask(run, s) == Request(g, run, s)
  }

  lemma TilePager(g: Grid) returns (p: Pager<TileRun>)
    ensures Answering(p, g)
  {
    p := Pager(TileRun({}, []), (run, s) => Request(g, run, s));
  }

  ghost predicate AllPlaced(out: seq<Option<Rect>>, sizes: seq<Size>) {
    |out| == |sizes| &&
    forall i :: 0 <= i < |out| ==> out[i].Some? && out[i].value.w == sizes[i].w && out[i].value.h == sizes[i].h
  }

  /** A granted segment is a run of the placement requests. */
  lemma {:induction false} GrantedIsPlaced(p: Pager<TileRun>, g: Grid, sizes: seq<Size>)
    requires Answering(p, g)
    ensures var r := Granted(p, sizes);
            r.Some? ==> r.value == Place(g, sizes)
  {
    if sizes != [] {
      var n := |sizes| - 1;
      GrantedIsPlaced(p, g, sizes[..n]);
      var prev := Granted(p, sizes[..n]);
      if prev.Some? {
        assert p.ask(prev.value, sizes[n]) == Request(g, prev.value, sizes[n]);
      }
    }
  }

  /** Each request of a granted segment got a place of the requested size. */
  lemma {:induction false} GrantedInOrder(p: Pager<TileRun>, g: Grid, sizes: seq<Size>)
    requires Answering(p, g)
    ensures var r := Granted(p, sizes);
            r.Some? ==> AllPlaced(r.value.out, sizes)
  {
    if sizes != [] {
      var n := |sizes| - 1;
      GrantedInOrder(p, g, sizes[..n]);
      var prev := Granted(p, sizes[..n]);
      if prev.Some? {
        assert p.ask(prev.value, sizes[n]) == Request(g, prev.value, sizes[n]);
        ChoiceFree(g, prev.value.bits, sizes[n]);
        if p.ask(prev.value, sizes[n]).Some? {
          PlacedOneMore(prev.value.out, sizes, TileChoice(g, prev.value.bits, sizes[n]));
        }
      }
    }
  }

  lemma PlacedOneMore(out: seq<Option<Rect>>, sizes: seq<Size>, r: Option<Rect>)
    requires sizes != [] && AllPlaced(out, sizes[..|sizes| - 1])
    requires r.Some? && r.value.w == sizes[|sizes| - 1].w && r.value.h == sizes[|sizes| - 1].h
    ensures AllPlaced(out + [r], sizes)
  {
  }

  /** The size has a place on an empty page. */
  predicate FitsEmpty(g: Grid, s: Size) {
    0 < g.cols && 0 < g.rows && (s.w <= 0 || s.h <= 0 || (s.w <= g.cols && s.h <= g.rows))
  }

  lemma EmptyPageChoice(g: Grid, s: Size)
    ensures TileChoice(g, {}, s).Some? <==> FitsEmpty(g, s)
  {
    AreaZero(At(Cell(0, 0), s));
    if FitsEmpty(g, s) {
      assert TileFree(g, {}, At(Cell(0, 0), s));
      assert Cell(0, 0) in TileAnchors(g, {}, s);
    } else {
      NeverPlaced(g, {}, s);
    }
  }

  /** An app that does not fit an empty page is refused by every page. */
  lemma {:induction false} NeverPlaced(g: Grid, bits: set<int>, s: Size)
    requires !FitsEmpty(g, s)
    ensures TileChoice(g, bits, s) == None
  {
    var c := TileChoice(g, bits, s);
    ChoiceFree(g, bits, s);
    if c.Some? {
      AreaZero(c.value);
    }
  }

  lemma TilePagerMonotone(p: Pager<TileRun>, g: Grid)
    requires Answering(p, g)
    ensures Monotone(p) && forall s: Size :: p.ask(p.blank, s).Some? <==> FitsEmpty(g, s)
  {
    forall s: Size
      ensures p.ask(p.blank, s).Some? <==> FitsEmpty(g, s)
    {
      EmptyPageChoice(g, s);
      assert p.ask(p.blank, s) == Request(g, p.blank, s);
    }
    forall run: TileRun, s: Size | p.ask(p.blank, s) == None
      ensures p.ask(run, s) == None
    {
      NeverPlaced(g, run.bits, s);
      assert p.ask(run, s) == Request(g, run, s);
    }
  }

  /** Paging over tile layouts terminates exactly when every app fits an empty page; no
      condition on the page width is needed. */
  lemma TilePagingTerminatesIff(p: Pager<TileRun>, g: Grid, apps: seq<Size>)
    requires Answering(p, g)
    ensures Terminates(p, apps) <==> forall i :: 0 <= i < |apps| ==> FitsEmpty(g, apps[i])
  {
    TilePagerMonotone(p, g);
    TerminatesIff(p, apps);
  }

  /** All answers of all pages, in order. */
  ghost function Answers(pages: seq<Page<TileRun>>): seq<Option<Rect>> {
    if pages == [] then [] else Answers(pages[..|pages| - 1]) + pages[|pages| - 1].state.out
  }

  lemma AnswersGrow(pages: seq<Page<TileRun>>, p: Page<TileRun>)
    ensures Answers(pages + [p]) == Answers(pages) + p.state.out
  {
    assert (pages + [p])[..|pages|] == pages;
  }

  lemma PlacedConcat(apps: seq<Size>, a: seq<Option<Rect>>, b: seq<Option<Rect>>, i: nat, j: nat)
    requires i <= j <= |apps| && AllPlaced(a, apps[..i]) && AllPlaced(b, apps[i..j])
    ensures AllPlaced(a + b, apps[..j])
  {
    forall k | 0 <= k < j
      ensures var r := (a + b)[k]; r.Some? && r.value.w == apps[k].w && r.value.h == apps[k].h
    {
      if k >= i {
        assert apps[i..j][k - i] == apps[k];
      } else {
        assert apps[..i][k] == apps[k];
      }
    }
  }

  lemma PlacedNextPage(apps: seq<Size>, pages: seq<Page<TileRun>>, state: TileRun, i: nat, j: nat)
    requires i <= j <= |apps| && AllPlaced(Answers(pages), apps[..i]) && AllPlaced(state.out, apps[i..j])
    ensures AllPlaced(Answers(pages + [Page(i, state)]), apps[..j])
  {
    AnswersGrow(pages, Page(i, state));
    PlacedConcat(apps, Answers(pages), state.out, i, j);
  }

  lemma FilledInOrder(p: Pager<TileRun>, g: Grid, apps: seq<Size>, first: nat, filled: (TileRun, nat))
    requires Answering(p, g) && first <= |apps| && filled == Fill(p, apps, p.blank, first)
    ensures AllPlaced(filled.0.out, apps[first..filled.1])
  {
    assert apps[first..first] == [];
    FillMaximal(p, apps, first, first, p.blank);
    GrantedInOrder(p, g, apps[first..filled.1]);
  }

  /** Every app dealt with so far was placed exactly once, in list order, at its own size. */
  lemma {:induction false} PlacedInOrder(p: Pager<TileRun>, g: Grid, apps: seq<Size>, n: nat)
    requires Answering(p, g)
    ensures var b := AfterPages(p, apps, n);
            AllPlaced(Answers(b.pages), apps[..b.idx])
  {
    if n > 0 {
      PlacedInOrder(p, g, apps, n - 1);
      var a := AfterPages(p, apps, n - 1);
      if a.idx < |apps| {
        var filled := Fill(p, apps, p.blank, a.idx);
        FilledInOrder(p, g, apps, a.idx, filled);
        PlacedNextPage(apps, a.pages, filled.0, a.idx, filled.1);
      }
    }
  }

  /** A rectangle of this size fits nowhere on the page. */
  ghost predicate NoRoom(g: Grid, occ: set<Cell>, s: Size) {
    forall c: Cell :: !Fits(g.cols, g.rows, occ, At(c, s))
  }

  /** No page overlaps, and paging is greedy: the first app of each later page has no room on
      the page before it. Stated for apps whose heights the page handles soundly. */
  lemma Greedy(p: Pager<TileRun>, g: Grid, apps: seq<Size>, n: nat, k: nat)
    requires Answering(p, g) && AllSound(g, apps)
    requires k < |AfterPages(p, apps, n).pages|
    ensures var b := AfterPages(p, apps, n);
            var page := b.pages[k].state;
            && Packed(g.cols, g.rows, page.out) && |page.bits| == TotalArea(page.out)
            && (k + 1 < |b.pages| ==>
                  var next := b.pages[k + 1].first;
                  next < |apps| && NoRoom(g, CellsOf(page.out), apps[next]))
  {
    var b := AfterPages(p, apps, n);
    BookShape(p, apps, n);
    assert PageShape(p, apps, b, k);
    var page, end := b.pages[k], PageEnd(b, k);
    GrantedIsPlaced(p, g, apps[page.first..end]);
    SegmentFacts(g, apps[page.first..end]);
    if k + 1 < |b.pages| {
      assert PageShape(p, apps, b, k + 1);
      assert p.ask(page.state, apps[end]) == Request(g, page.state, apps[end]);
      RefusedMeansNoRoom(g, page.state.bits, CellsOf(page.state.out), apps[end]);
    }
  }

  lemma SegmentFacts(g: Grid, sizes: seq<Size>)
    requires AllSound(g, sizes)
    ensures var run := Place(g, sizes);
            && Packed(g.cols, g.rows, run.out) && |run.bits| == TotalArea(run.out)
            && CellsOf(run.out) == Occ(g, run.bits)
  {
    RunPacked(g, sizes);
    RunIsReference(g, sizes);
    AllocateCells(g.cols, g.rows, sizes);
  }

  lemma RefusedMeansNoRoom(g: Grid, bits: set<int>, occ: set<Cell>, s: Size)
    requires Sound(g, s.h) && occ == Occ(g, bits) && TileChoice(g, bits, s) == None
    ensures NoRoom(g, occ, s)
  {
    ChoiceIsFirstFit(g, bits, s);
    FirstFitMeaning(g.cols, g.rows, occ, s);
  }

  /** The children of a page: the placed apps that are not padding. */
  ghost function Children(apps: seq<App>, out: seq<Option<Rect>>): seq<Rect>
    requires |out| <= |apps|
  {
    if out == [] then []
    else
      var k := |out| - 1;
      Children(apps, out[..k]) + if out[k].Some? && apps[k].init then [out[k].value] else []
  }

  lemma ChildrenGrow(apps: seq<App>, out: seq<Option<Rect>>, r: Option<Rect>)
    requires |out| < |apps|
    ensures Children(apps, out + [r])
         == Children(apps, out) + if r.Some? && apps[|out|].init then [r.value] else []
  {
    assert (out + [r])[..|out|] == out;
  }

  /** An app is shown if it is placed and has an init function. */
  lemma ChildrenOne(app: App, r: Option<Rect>)
    ensures Children([app], [r]) == if r.Some? && app.init then [r.value] else []
  {
    ChildrenGrow([app], [], r);
    assert [] + [r] == [r];
  }

  /** Apps are shown in list order, each on its own account. */
  lemma {:induction false} ChildrenJoin(a: seq<App>, out: seq<Option<Rect>>, b: seq<App>, more: seq<Option<Rect>>)
    requires |out| == |a| && |more| <= |b|
    ensures Children(a + b, out + more) == Children(a, out) + Children(b, more)
    decreases |more|
  {
    if more == [] {
      assert out + more == out;
      ChildrenPrefix(a, b, out);
    } else {
      var n := |more| - 1;
      var r, front := more[n], more[..n];
      ChildrenJoin(a, out, b, front);
      assert more == front + [r] && out + more == (out + front) + [r];
      ChildrenGrow(b, front, r);
      ChildrenGrow(a + b, out + front, r);
    }
  }

  lemma {:induction false} ChildrenPrefix(a: seq<App>, b: seq<App>, out: seq<Option<Rect>>)
    requires |out| <= |a|
    ensures Children(a + b, out) == Children(a, out)
    decreases |out|
  {
    if out != [] {
      ChildrenPrefix(a, b, out[..|out| - 1]);
    }
  }

  /** The inner loop on a new page: requests are granted until the list ends or one is
      refused. */
  method FillPage(tl: T.TileLayout, apps: seq<App>, first: nat, ghost p: Pager<TileRun>)
    returns (idx: nat, ghost run: TileRun)
    requires tl.Valid() && tl.bits == {} && tl.children == [] && first <= |apps|
    requires Answering(p, tl.Page())
    modifies tl`bits, tl`children, tl.data
    ensures Fill(p, Sizes(apps), p.blank, first) == (run, idx)
    ensures first + |run.out| == idx && tl.children == Children(apps[first..], run.out)
  {
    ghost var g := tl.Page();
    ghost var sizes, rest := Sizes(apps), apps[first..];
    idx := first;
    run := p.blank;
    while idx != |apps|
      invariant first <= idx <= |apps| && first + |run.out| == idx
      invariant tl.Valid() && tl.Page() == g && run.bits == tl.bits
      invariant Fill(p, sizes, run, idx) == Fill(p, sizes, p.blank, first)
      invariant tl.children == Children(rest, run.out)
      decreases |apps| - idx
    {
      ghost var bits := tl.bits;
      ghost var choice := Asked(p, g, run, apps[idx].size);
      assert rest[|run.out|] == apps[idx];
      var item := tl.NewItem(apps[idx].size.w, apps[idx].size.h, !apps[idx].init);
      if item.Null? {
        break;
      }
      assert tl.bits == TileMark(g, bits, choice) && choice.Some?;
      assert tl.children == Children(rest, run.out) + if apps[idx].init then [choice.value] else [];
      ChildrenGrow(rest, run.out, choice);
      run := TileRun(tl.bits, run.out + [choice]);
      idx := idx + 1;
    }
  }

  /** One request to the pager, in terms of the layout's choice. */
  lemma Asked(p: Pager<TileRun>, g: Grid, run: TileRun, s: Size) returns (choice: Option<Rect>)
    requires Answering(p, g)
    ensures choice == TileChoice(g, run.bits, Size(s.w, s.h))
    ensures p.ask(run, s) == if choice == None then None
                             else Some(TileRun(TileMark(g, run.bits, choice), run.out + [choice]))
  {
    choice := TileChoice(g, run.bits, s);
    assert p.ask(run, s) == Request(g, run, s);
  }

  /** What is shown on every page of the book. */
  ghost predicate Displays(apps: seq<App>, shown: seq<seq<Rect>>, pages: seq<Page<TileRun>>) {
    |shown| == |pages| &&
    forall k :: 0 <= k < |shown| ==>
      && pages[k].first + |pages[k].state.out| <= |apps|
      && shown[k] == Children(apps[pages[k].first..], pages[k].state.out)
  }

  /** The book is fixed by the grid and the list: any two pagers that answer as a tile page of
      the grid does make the same one. */
  lemma OneBook(p: Pager<TileRun>, q: Pager<TileRun>, g: Grid, apps: seq<Size>, n: nat)
    requires Answering(p, g) && Answering(q, g)
    ensures AfterPages(p, apps, n) == AfterPages(q, apps, n)
  {
    forall run, s: Size
      ensures p.ask(run, s) == q.ask(run, s)
    {
      assert p.ask(run, s) == Request(g, run, s);
    }
    AlikeBooks(p, q, apps, n);
  }

  /** smart_home_ui_init's loops. Each page is a new tile layout over the same content area;
      its children are what the page shows. The requirement is the exact termination
      condition. */
  method SmartHomeUiInit(contentW: int, contentH: int, apps: seq<App>)
    returns (shown: seq<seq<Rect>>, ghost p: Pager<TileRun>, ghost book: Book<TileRun>)
    requires 0 <= contentW && 0 <= contentH
    requires forall i :: 0 <= i < |apps| ==> FitsEmpty(Grid(contentW / 200, contentH / 200), apps[i].size)
    ensures Answering(p, Grid(contentW / 200, contentH / 200))
    ensures forall q :: Answering(q, Grid(contentW / 200, contentH / 200)) ==>
              book == AfterPages(q, Sizes(apps), |shown|)
    ensures book.idx == |apps| && |shown| <= |apps|
    ensures Displays(apps, shown, book.pages)
  {
    ghost var g := Grid(contentW / 200, contentH / 200);
    ghost var sizes := Sizes(apps);
    p := TilePager(g);
    Takeable(p, g, sizes);
    book := Book(0, []);
    shown := [];
    var idx := 0;
    var cnt := 0;
    while idx != |apps|
      invariant 0 <= idx <= |apps| && cnt == |shown| <= idx
      invariant book == AfterPages(p, sizes, cnt) && idx == book.idx
      invariant Displays(apps, shown, book.pages)
      decreases |apps| - idx
    {
      var tl := new T.TileLayout(contentW, contentH, 0, 0, 200);
      cnt := cnt + 1;
      ghost var first, run := idx, p.blank;
      idx, run := FillPage(tl, apps, idx, p);
      shown := shown + [tl.children];
      book := Book(idx, book.pages + [Page(first, run)]);
    }
    forall q | Answering(q, g)
      ensures book == AfterPages(q, sizes, |shown|)
    {
      OneBook(p, q, g, sizes, |shown|);
    }
  }

  lemma Takeable(p: Pager<TileRun>, g: Grid, apps: seq<Size>)
    requires Answering(p, g) && forall i :: 0 <= i < |apps| ==> FitsEmpty(g, apps[i])
    ensures AllTakeable(p, apps)
  {
    forall i | 0 <= i < |apps|
      ensures p.ask(p.blank, apps[i]).Some?
    {
      EmptyPageChoice(g, apps[i]);
      assert p.ask(p.blank, apps[i]) == Request(g, p.blank, apps[i]);
    }
  }
}
