/** The intercom home page: the paging loops with one-tile items, and their closed form. */
module IntercomPaging {
  import opened Geometry
  import opened LinearBuffer
  import opened TileMap
  import opened TilePlacement
  import opened UnitTiles
  import T = TileLayout

  function Units(k: nat): (s: seq<Size>)
    ensures |s| == k && forall i :: 0 <= i < k ==> s[i] == ONE
  {
    seq(k, _ => ONE)
  }

  /** Invariant of a page of one-tile items, whatever its width: the marked cells are the
      first k in row-major order, and the next item goes to tile k until the page is full. */
  lemma UnitStep(g: Grid, bits: set<int>, k: nat)
    requires 0 < g.cols && k <= g.cols * g.rows && FirstCells(g.cols, g.rows, Occ(g, bits), k)
    ensures var choice := TileChoice(g, bits, ONE);
            if k < g.cols * g.rows
            then choice == Some(Tile(g.cols, k))
                 && FirstCells(g.cols, g.rows, Occ(g, TileMark(g, bits, choice)), k + 1)
            else choice == None
  {
    NextTile(g.cols, g.rows, Occ(g, bits), k);
    ChoiceIsFirstFit(g, bits, ONE);
    if k < g.cols * g.rows {
      ChoiceFree(g, bits, ONE);
      MarkAddsCells(g, bits, Tile(g.cols, k));
      TakeTile(g.cols, g.rows, Occ(g, bits), k);
    }
  }

  lemma BlankPage(g: Grid)
    ensures FirstCells(g.cols, g.rows, Occ(g, {}), 0)
  {
    forall c: Cell | InGrid(g.cols, g.rows, c)
      ensures c !in Occ(g, {}) && !(Pos(g.cols, c) < 0)
    {
      PosBound(g.cols, g.rows, c);
    }
  }

  /** The first k tiles are taken, in order. */
  ghost predicate UnitsTaken(g: Grid, run: TileRun, k: nat)
    requires 0 < g.cols
  {
    && |run.out| == k && FirstCells(g.cols, g.rows, Occ(g, run.bits), k)
    && forall i :: 0 <= i < k ==> run.out[i] == Some(Tile(g.cols, i))
  }

  lemma OneMoreUnit(g: Grid, run: TileRun, k: nat)
    requires 0 < g.cols && k < g.cols * g.rows && UnitsTaken(g, run, k)
    ensures var choice := TileChoice(g, run.bits, ONE);
            UnitsTaken(g, TileRun(TileMark(g, run.bits, choice), run.out + [choice]), k + 1)
  {
    UnitStep(g, run.bits, k);
  }

  /** After k one-tile requests the first k tiles are taken, in order. */
  lemma {:induction false} UnitRun(g: Grid, k: nat)
    requires 0 < g.cols && k <= g.cols * g.rows
    ensures UnitsTaken(g, Place(g, Units(k)), k)
  {
    if k == 0 {
      BlankPage(g);
    } else {
      UnitRun(g, k - 1);
      OneMoreUnit(g, Place(g, Units(k - 1)), k - 1);
      assert Units(k) == Units(k - 1) + [ONE];
      PlaceOneMore(g, Units(k - 1), ONE);
    }
  }

  /** The inner loop of the intercom page on a new layout. */
  method FillWithUnits(tl: T.TileLayout, apps: nat, first: nat) returns (idx: nat)
    requires tl.Valid() && tl.bits == {} && tl.children == [] && first <= apps && 0 < tl.cols
    modifies tl`bits, tl`children, tl.data
    ensures idx == Min(first + tl.cols * tl.rows, apps)
    ensures tl.children == Tiles(tl.cols, idx - first)
  {
    ghost var g := tl.Page();
    idx := first;
    BlankPage(g);
    while idx != apps
      invariant first <= idx <= apps && idx - first <= g.cols * g.rows
      invariant tl.Valid() && tl.Page() == g
      invariant FirstCells(g.cols, g.rows, Occ(g, tl.bits), idx - first)
      invariant tl.children == Tiles(g.cols, idx - first)
      decreases apps - idx
    {
      UnitStep(g, tl.bits, idx - first);
      var item := tl.NewItem(1, 1, false);
      if item.Null? {
        break;
      }
      idx := idx + 1;
    }
  }

  /** intercom_homepage_ui_init's loops. With N tiles a page, the page count is apps / N
      rounded up and page q shows the next min(N, apps - q * N) items on its first tiles. */
  method IntercomHomepageUiInit(contentW: int, contentH: int, apps: nat) returns (shown: seq<seq<Rect>>)
    requires 0 <= contentW && 0 <= contentH
    requires 0 < apps ==> 150 <= contentW && 150 <= contentH
    ensures 0 < apps ==> Pages(contentW / 150, (contentW / 150) * (contentH / 150), apps, shown)
    ensures apps == 0 ==> shown == []
  {
    shown := [];
    var idx := 0;
    var cnt := 0;
    ghost var cols, rows := contentW / 150, contentH / 150;
    ghost var n := cols * rows;
    while idx != apps
      invariant 0 <= idx <= apps && cnt == |shown|
      invariant cnt == 0 ==> idx == 0
      invariant 0 < cnt ==> 0 < cols && 0 < n && (cnt - 1) * n < apps && idx == Min(cnt * n, apps)
      invariant forall q :: 0 <= q < cnt ==>
                  0 < cols && 0 < n && q * n < apps && shown[q] == Tiles(cols, Min(n, apps - q * n))
      decreases apps - idx
    {
      MulMono(1, rows, cols);
      var tl := new T.TileLayout(contentW, contentH, 0, 0, 150);
      ghost var before := idx;
      assert before == cnt * n;
      idx := FillWithUnits(tl, apps, idx);
      shown := shown + [tl.children];
      cnt := cnt + 1;
      assert cnt * n == (cnt - 1) * n + n;
    }
    if 0 < apps {
      PageCount(n, apps, cnt);
    }
  }

  /** The closed form of the pages. */
  ghost predicate Pages(cols: nat, n: nat, apps: nat, shown: seq<seq<Rect>>) {
    && 0 < cols && 0 < n
    && |shown| == (apps + n - 1) / n
    && forall q :: 0 <= q < |shown| ==> q * n < apps && shown[q] == Tiles(cols, Min(n, apps - q * n))
  }

  lemma PageCount(n: nat, apps: nat, cnt: nat)
    requires 0 < n && 0 < cnt && (cnt - 1) * n < apps <= cnt * n
    ensures cnt == (apps + n - 1) / n
  {
    var r := apps + n - 1 - cnt * n;
    assert cnt * n == (cnt - 1) * n + n;
    assert 0 <= r < n && apps + n - 1 == cnt * n + r;
    QuotientUnique(apps + n - 1, n, cnt, r);
  }

  /** App k is on page k / N, at column (k % N) % cols and row (k % N) / cols. */
  lemma WhereIsApp(cols: nat, n: nat, apps: nat, shown: seq<seq<Rect>>, k: nat)
    requires Pages(cols, n, apps, shown) && k < apps
    ensures k / n < |shown| && k % n < |shown[k / n]|
    ensures shown[k / n][k % n] == Rect((k % n) % cols, (k % n) / cols, 1, 1)
  {
    RoundedUp(apps, n);
    QuotientBelow(k, n, |shown|);
    var q, i := k / n, k % n;
    assert shown[q] == Tiles(cols, Min(n, apps - q * n));
    assert i < Min(n, apps - q * n);
    assert shown[q][i] == Tile(cols, i);
  }

  lemma RoundedUp(apps: nat, n: nat)
    requires 0 < n
    ensures apps <= ((apps + n - 1) / n) * n
  {
  }
}
