/** The nested paging loops over any kind of page: open a page, ask it to take the apps of the
    list one by one, and open the next page when one is refused. */
module Paginator {
  import opened Geometry

  /** A kind of page: its blank state and its answer to a request (None is a refusal). */
  datatype Pager<!S> = Pager(blank: S, ask: (S, Size) -> Option<S>)

  /** A page of the book: its first app and its final state. */
  datatype Page<S> = Page(first: nat, state: S)

  /** Progress of the outer loop: the next app and the pages made so far. */
  datatype Book<S> = Book(idx: nat, pages: seq<Page<S>>)

  /** The inner loop: keep asking until the list ends or an app is refused. */
  ghost function Fill<S>(p: Pager<S>, apps: seq<Size>, state: S, idx: nat): (r: (S, nat))
    requires idx <= |apps|
    ensures idx <= r.1 <= |apps|
    decreases |apps| - idx
  {
    if idx == |apps| then (state, idx)
    else match p.ask(state, apps[idx])
         case None => (state, idx)
         case Some(next) => Fill(p, apps, next, idx + 1)
  }

  /** The state after n iterations of the outer loop; it stays put once the list is done. */
  ghost function AfterPages<S>(p: Pager<S>, apps: seq<Size>, n: nat): (b: Book<S>)
    ensures b.idx <= |apps|
  {
    if n == 0 then Book(0, [])
    else
      var b := AfterPages(p, apps, n - 1);
      if b.idx == |apps| then b
      else
        var (state, next) := Fill(p, apps, p.blank, b.idx);
        Book(next, b.pages + [Page(b.idx, state)])
  }

  /** The state of a page that granted all these requests in order, if it did. */
  ghost function Granted<S>(p: Pager<S>, sizes: seq<Size>): Option<S> {
    if sizes == [] then Some(p.blank)
    else match Granted(p, sizes[..|sizes| - 1])
         case None => None
         case Some(state) => p.ask(state, sizes[|sizes| - 1])
  }

  lemma GrantedOneMore<S>(p: Pager<S>, sizes: seq<Size>, s: Size)
    ensures Granted(p, sizes + [s])
         == (match Granted(p, sizes) case None => None case Some(state) => p.ask(state, s))
  {
    assert (sizes + [s])[..|sizes|] == sizes;
  }

  lemma SliceGrows<T>(s: seq<T>, a: nat, b: nat)
    requires a <= b < |s|
    ensures s[a..b] + [s[b]] == s[a..b + 1]
  {
  }

  /** The inner loop takes a maximal segment of the list. */
  lemma {:induction false} FillMaximal<S>(p: Pager<S>, apps: seq<Size>, first: nat, idx: nat, state: S)
    requires first <= idx <= |apps| && Granted(p, apps[first..idx]) == Some(state)
    ensures var (r, j) := Fill(p, apps, state, idx);
            && Granted(p, apps[first..j]) == Some(r)
            && (j == |apps| || p.ask(r, apps[j]) == None)
    decreases |apps| - idx
  {
    if idx < |apps| {
      var next := p.ask(state, apps[idx]);
      if next.Some? {
        GrantedOneMore(p, apps[first..idx], apps[idx]);
        SliceGrows(apps, first, idx);
        FillMaximal(p, apps, first, idx + 1, next.value);
      }
    }
  }

  ghost function PageEnd<S>(b: Book<S>, k: nat): nat
    requires k < |b.pages|
  {
    if k + 1 < |b.pages| then b.pages[k + 1].first else b.idx
  }

  /** Page k granted exactly a segment of the list, and refused the app after it, if any. */
  ghost predicate PageShape<S>(p: Pager<S>, apps: seq<Size>, b: Book<S>, k: nat)
    requires k < |b.pages|
  {
    var page, end := b.pages[k], PageEnd(b, k);
    && page.first <= end <= |apps| && page.first < |apps|
    && Granted(p, apps[page.first..end]) == Some(page.state)
    && (end == |apps| || p.ask(page.state, apps[end]) == None)
  }

  /** At every moment the pages partition the apps dealt with, in order, and are maximal. */
  lemma {:induction false} BookShape<S>(p: Pager<S>, apps: seq<Size>, n: nat)
    ensures var b := AfterPages(p, apps, n);
            && (if b.pages == [] then b.idx == 0 else b.pages[0].first == 0)
            && forall k :: 0 <= k < |b.pages| ==> PageShape(p, apps, b, k)
  {
    if n > 0 {
      BookShape(p, apps, n - 1);
      var a, b := AfterPages(p, apps, n - 1), AfterPages(p, apps, n);
      if a.idx < |apps| {
        assert apps[a.idx..a.idx] == [];
        FillMaximal(p, apps, a.idx, a.idx, p.blank);
        forall k | 0 <= k < |b.pages|
          ensures PageShape(p, apps, b, k)
        {
          if k < |a.pages| {
            assert PageShape(p, apps, a, k);
            assert b.pages[k] == a.pages[k] && PageEnd(b, k) == PageEnd(a, k);
          }
        }
      }
    }
  }

  /** A size refused by a blank page is refused by every page. */
  ghost predicate Monotone<S(!new)>(p: Pager<S>) {
    forall state, s :: p.ask(p.blank, s) == None ==> p.ask(state, s) == None
  }

  ghost predicate AllTakeable<S>(p: Pager<S>, apps: seq<Size>) {
    forall i :: 0 <= i < |apps| ==> p.ask(p.blank, apps[i]).Some?
  }

  /** The outer loop comes to the end of the list. */
  ghost predicate Terminates<S>(p: Pager<S>, apps: seq<Size>) {
    exists n: nat :: AfterPages(p, apps, n).idx == |apps|
  }

  /** Every iteration deals with at least one app while blank pages take every app. */
  lemma {:induction false} Progress<S>(p: Pager<S>, apps: seq<Size>, n: nat)
    requires AllTakeable(p, apps)
    ensures var b := AfterPages(p, apps, n);
            |b.pages| <= b.idx && (b.idx == |apps| || n == |b.pages|)
  {
    if n > 0 {
      Progress(p, apps, n - 1);
    }
  }

  /** The loop never gets past an app that a blank page refuses. */
  lemma {:induction false} Stuck<S(!new)>(p: Pager<S>, apps: seq<Size>, i: nat, n: nat)
    requires Monotone(p) && i < |apps| && p.ask(p.blank, apps[i]) == None
    ensures AfterPages(p, apps, n).idx <= i
  {
    if n > 0 {
      Stuck(p, apps, i, n - 1);
      FillBlocked(p, apps, p.blank, AfterPages(p, apps, n - 1).idx, i);
    }
  }

  lemma {:induction false} FillBlocked<S(!new)>(p: Pager<S>, apps: seq<Size>, state: S, idx: nat, i: nat)
    requires Monotone(p) && idx <= i < |apps| && p.ask(p.blank, apps[i]) == None
    ensures Fill(p, apps, state, idx).1 <= i
    decreases i - idx
  {
    var next := p.ask(state, apps[idx]);
    if next.Some? {
      FillBlocked(p, apps, next.value, idx + 1, i);
    }
  }

  /** Paging terminates exactly when a blank page takes every app of the list. */
  lemma TerminatesIff<S(!new)>(p: Pager<S>, apps: seq<Size>)
    requires Monotone(p)
    ensures Terminates(p, apps) <==> AllTakeable(p, apps)
  {
    if AllTakeable(p, apps) {
      Progress(p, apps, |apps|);
      assert AfterPages(p, apps, |apps|).idx == |apps|;
    } else {
      var i :| 0 <= i < |apps| && !p.ask(p.blank, apps[i]).Some?;
      forall n: nat
        ensures AfterPages(p, apps, n).idx <= i
      {
        Stuck(p, apps, i, n);
      }
    }
  }

  /** Two kinds of page that answer alike make the same book. */
  ghost predicate Alike<S(!new)>(p: Pager<S>, q: Pager<S>) {
    p.blank == q.blank && forall state, s :: p.ask(state, s) == q.ask(state, s)
  }

  lemma {:induction false} AlikeFill<S(!new)>(p: Pager<S>, q: Pager<S>, apps: seq<Size>, state: S, idx: nat)
    requires Alike(p, q) && idx <= |apps|
    ensures Fill(p, apps, state, idx) == Fill(q, apps, state, idx)
    decreases |apps| - idx
  {
    if idx < |apps| && p.ask(state, apps[idx]).Some? {
      AlikeFill(p, q, apps, p.ask(state, apps[idx]).value, idx + 1);
    }
  }

  lemma {:induction false} AlikeBooks<S(!new)>(p: Pager<S>, q: Pager<S>, apps: seq<Size>, n: nat)
    requires Alike(p, q)
    ensures AfterPages(p, apps, n) == AfterPages(q, apps, n)
  {
    if n > 0 {
      AlikeBooks(p, q, apps, n - 1);
      AlikeFill(p, q, apps, p.blank, AfterPages(p, apps, n - 1).idx);
    }
  }
}
