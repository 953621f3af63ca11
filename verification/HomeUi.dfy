/** The home page's column and row descriptors, and what the button matrix makes of them. */
module HomeUi {
  import opened Geometry
  import opened LinearBuffer
  import opened UnitTiles
  import opened ButtonMatrix
  import T = TileLayout

  /** n tracks of one size, then the terminator. */
  ghost predicate IsDescriptor(dsc: seq<int>, n: nat, item: int, last: int) {
    |dsc| == n + 1 && dsc[n] == last && forall i :: 0 <= i < n ==> dsc[i] == item
  }

  /** The fill loop writes every entry, terminator's place included, before the overwrite. */
  method BuildDescriptor(n: nat, item: int, last: int) returns (dsc: array<int>)
    ensures fresh(dsc) && IsDescriptor(dsc[..], n, item, last)
  {
    dsc := new int[n + 1](_ => 0);
    for i := 0 to n + 1
      invariant forall k :: 0 <= k < i ==> dsc[k] == item
    {
      dsc[i] := item;
    }
    dsc[n] := last;
  }

  /** What reading back a descriptor gives. */
  lemma RoundTrip(dsc: seq<int>, n: nat, item: int, last: int)
    requires IsDescriptor(dsc, n, item, last)
    ensures last in dsc
    ensures Tracks(dsc, last) == if 0 < n && item == last then Some(0) else if n <= 100 then Some(n) else None
  {
    assert dsc[n] == last && (0 < n ==> dsc[0] == item);
    var r := if 0 < n && item == last then Some(0) else if n <= 100 then Some(n) else None;
    TracksUnique(dsc, last, r, Tracks(dsc, last));
  }

  /** Reading back a descriptor gives its track count iff there are at most 100 tracks and
      the track size is not the terminator's value. */
  lemma RoundTripIff(dsc: seq<int>, n: nat, item: int, last: int)
    requires IsDescriptor(dsc, n, item, last)
    ensures last in dsc
    ensures Tracks(dsc, last) == Some(n) <==> n <= 100 && (n == 0 || item != last)
  {
    RoundTrip(dsc, n, item, last);
  }

  function Buttons(n: nat): (s: seq<Button>)
    ensures |s| == n && forall i :: 0 <= i < n ==> s[i] == Button(ONE, 0, 0, 0, 0)
  {
    seq(n, _ => Button(ONE, 0, 0, 0, 0))
  }

  lemma OneMoreButton(cols: nat, rows: nat, k: nat)
    requires 0 < k
    ensures var prev := Arrange(cols, rows, Buttons(k - 1));
            var o := Answer(cols, rows, prev.taken, Button(ONE, 0, 0, 0, 0));
            Arrange(cols, rows, Buttons(k)) == Matrix(TakenAfter(cols, prev.taken, o), prev.out + [o])
  {
    ArrangeOneMore(cols, rows, Buttons(k - 1), Button(ONE, 0, 0, 0, 0));
    assert Buttons(k) == Buttons(k - 1) + [Button(ONE, 0, 0, 0, 0)];
  }

  lemma BlankMap(cols: nat, rows: nat)
    ensures FirstCells(cols, rows, Occupied(cols, rows, {}), 0)
  {
    forall c: Cell | InGrid(cols, rows, c)
      ensures !(Pos(cols, c) < 0) && c !in Occupied(cols, rows, {})
    {
      PosBound(cols, rows, c);
    }
  }

  ghost predicate InOrder(cols: nat, rows: nat, m: Matrix, k: nat)
    requires 0 < cols
  {
    && FirstCells(cols, rows, Occupied(cols, rows, m.taken), k)
    && |m.out| == k && forall i :: 0 <= i < k ==> m.out[i] == Auto(Tile(cols, i))
  }

  /** One-tile buttons are placed in row-major order while there are cells left. */
  lemma {:induction false} ButtonsInOrder(cols: nat, rows: nat, k: nat)
    requires 0 < cols && k <= cols * rows
    ensures InOrder(cols, rows, Arrange(cols, rows, Buttons(k)), k)
  {
    if k == 0 {
      BlankMap(cols, rows);
    } else {
      ButtonsInOrder(cols, rows, k - 1);
      OneMoreButton(cols, rows, k);
      NextInOrder(cols, rows, Arrange(cols, rows, Buttons(k - 1)), Arrange(cols, rows, Buttons(k)), k - 1);
    }
  }

  lemma NextInOrder(cols: nat, rows: nat, prev: Matrix, m: Matrix, k: nat)
    requires 0 < cols && k < cols * rows && InOrder(cols, rows, prev, k)
    requires var o := Answer(cols, rows, prev.taken, Button(ONE, 0, 0, 0, 0));
             m == Matrix(TakenAfter(cols, prev.taken, o), prev.out + [o])
    ensures InOrder(cols, rows, m, k + 1)
  {
    NextButton(cols, rows, prev.taken, k);
  }

  lemma NextButton(cols: nat, rows: nat, taken: set<int>, k: nat)
    requires 0 < cols && k < cols * rows && FirstCells(cols, rows, Occupied(cols, rows, taken), k)
    ensures var o := Answer(cols, rows, taken, Button(ONE, 0, 0, 0, 0));
            && o == Auto(Tile(cols, k))
            && FirstCells(cols, rows, Occupied(cols, rows, TakenAfter(cols, taken, o)), k + 1)
  {
    var b := Button(ONE, 0, 0, 0, 0);
    NextTile(cols, rows, Occupied(cols, rows, taken), k);
    AnswerIsFirstFit(cols, rows, taken, b);
    MatrixTakes(cols, rows, taken, b);
    TakeTile(cols, rows, Occupied(cols, rows, taken), k);
  }

  /** With no columns, every one-tile button is too large. */
  lemma {:induction false} NoColumns(rows: nat, n: nat, k: nat)
    requires k < n
    ensures Arrange(0, rows, Buttons(n)).out[k] == TooLarge
    decreases n
  {
    OneMoreButton(0, rows, n);
    if k < n - 1 {
      NoColumns(rows, n - 1, k);
    }
  }

  lemma HalfRoundedUp(n: nat)
    ensures T.Ceil(n as real / 2.0) == (n + 1) / 2
  {
    var q := (n + 1) / 2;
    assert -(n as real / 2.0) >= (-q) as real;
    assert -(n as real / 2.0) < (-q + 1) as real;
  }

  /** All buttons were placed, the k-th in column k % cols and row k / cols. */
  predicate AllInOrder(r: Option<seq<Outcome>>, cols: nat, n: nat)
    requires 0 < cols
  {
    r.Some? && |r.value| == n && forall k :: 0 <= k < n ==> r.value[k] == Auto(Rect(k % cols, k / cols, 1, 1))
  }

  /** home_ui_init: one row of all buttons on a landscape screen, two columns on a portrait one.
      Every button is placed, in order, iff the track size is not the terminator and the longer
      track count is at most 100; a longer one gives null, and a track size that is the terminator
      reads as a grid without columns. */
  method HomeUiInit(landscape: bool, n: nat, item: int, last: int) returns (r: Option<seq<Outcome>>)
    requires 0 < n
    ensures landscape ==> (AllInOrder(r, n, n) <==> n <= 100 && item != last)
    ensures !landscape ==> (AllInOrder(r, 2, n) <==> (n + 1) / 2 <= 100 && item != last)
    ensures item != last && 100 < (if landscape then n else (n + 1) / 2) ==> r == None
    ensures item == last ==> r.Some? && |r.value| == n && forall k :: 0 <= k < n ==> r.value[k] == TooLarge
  {
    var cols, rows;
    if landscape {
      cols := n;
      rows := 1;
    } else {
      cols := 2;
      HalfRoundedUp(n);
      rows := T.Ceil(n as real / 2.0);
    }
    var colDsc := BuildDescriptor(cols, item, last);
    var rowDsc := BuildDescriptor(rows, item, last);
    assert colDsc[..][cols] == last && rowDsc[..][rows] == last;
    r := UiBtnmatrixCreate(colDsc[..], rowDsc[..], last, Buttons(n));
    RoundTrip(colDsc[..], cols, item, last);
    RoundTrip(rowDsc[..], rows, item, last);
    if item == last {
      forall k | 0 <= k < n
        ensures r.value[k] == TooLarge
      {
        NoColumns(0, n, k);
      }
      assert r.value[0] == TooLarge;
    } else if cols <= 100 && rows <= 100 {
      ButtonsInOrder(cols, rows, n);
      assert AllInOrder(r, cols, n);
    }
  }
}
