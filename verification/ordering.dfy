/** The orders in which book lists are shown, and the stable sort that
    produces them. `Leq(o, a, b)` holds when `a` may come before `b`, that
    is when the source's comparator returns a value <= 0. */
module Ordering {
  import opened Wrappers
  import opened Text
  import opened Schema

  datatype Order =
    | ByTitle         // a.title.localeCompare(b.title)
    | ByRatingDesc    // (b.rating || 0) - (a.rating || 0)
    | ByStatus        // a.status.localeCompare(b.status)
    | ByCategory      // a.category.localeCompare(b.category)
    | ByCreatedDesc   // newest createdAt first
    | ByUpdatedDesc   // ORDER BY updatedAt DESC

  /** `book.rating || 0`. */
  function RatingOrZero(b: Book): real {
    b.rating.GetOr(0.0)
  }

  predicate Leq(o: Order, a: Book, b: Book) {
    match o
    case ByTitle => LexLeq(a.title, b.title)
    case ByRatingDesc => RatingOrZero(a) >= RatingOrZero(b)
    case ByStatus => LexLeq(a.status, b.status)
    case ByCategory => LexLeq(a.category, b.category)
    case ByCreatedDesc => a.createdAt >= b.createdAt
    case ByUpdatedDesc => a.updatedAt >= b.updatedAt
  }

  lemma LeqTotal(o: Order, a: Book, b: Book)
    ensures Leq(o, a, b) || Leq(o, b, a)
  {
    match o
    case ByTitle => LexLeqTotal(a.title, b.title);
    case ByStatus => LexLeqTotal(a.status, b.status);
    case ByCategory => LexLeqTotal(a.category, b.category);
    case _ =>
  }

  lemma LeqTransitive(o: Order, a: Book, b: Book, c: Book)
    requires Leq(o, a, b) && Leq(o, b, c)
    ensures Leq(o, a, c)
  {
    match o
    case ByTitle => LexLeqTransitive(a.title, b.title, c.title);
    case ByStatus => LexLeqTransitive(a.status, b.status, c.status);
    case ByCategory => LexLeqTransitive(a.category, b.category, c.category);
    case _ =>
  }

  predicate Sorted(o: Order, s: seq<Book>) {
    forall i, j :: 0 <= i < j < |s| ==> Leq(o, s[i], s[j])
  }

  /** Puts `x` in front of the first element it may precede; `x` goes
      before elements it ties with, which keeps the sort stable. */
  function Insert(o: Order, x: Book, s: seq<Book>): (r: seq<Book>)
    requires Sorted(o, s)
    ensures Sorted(o, r)
    ensures multiset(r) == multiset(s) + multiset{x}
  {
    if s == [] then [x]
    else if Leq(o, x, s[0]) then
      FirstBelowRest(o, x, s);
      PrependSorted(o, x, s);
      [x] + s
    else
      var t := Insert(o, x, s[1..]);
      LeqTotal(o, x, s[0]);
      assert s == [s[0]] + s[1..];
      BelowAll(o, s[0], s[1..], x, t);
      PrependSorted(o, s[0], t);
      [s[0]] + t
  }

  /** An element that may precede every element of a sorted list may be
      put in front of it. */
  lemma PrependSorted(o: Order, x: Book, s: seq<Book>)
    requires Sorted(o, s)
    requires forall j :: 0 <= j < |s| ==> Leq(o, x, s[j])
    ensures Sorted(o, [x] + s)
  {
    var r := [x] + s;
    forall i, j | 0 <= i < j < |r| ensures Leq(o, r[i], r[j]) {
      if i > 0 { assert r[i] == s[i - 1] && r[j] == s[j - 1]; }
      else { assert r[j] == s[j - 1]; }
    }
  }

  /** In a sorted list, what may precede the head may precede everything. */
  lemma FirstBelowRest(o: Order, x: Book, s: seq<Book>)
    requires Sorted(o, s) && s != [] && Leq(o, x, s[0])
    ensures forall j :: 0 <= j < |s| ==> Leq(o, x, s[j])
  {
    forall j | 0 <= j < |s| ensures Leq(o, x, s[j]) {
      if j > 0 { LeqTransitive(o, x, s[0], s[j]); }
    }
  }

  /** A bound on every element of `u` and on `x` bounds every element of a
      list holding the elements of `u` and `x`. */
  lemma BelowAll(o: Order, y: Book, u: seq<Book>, x: Book, t: seq<Book>)
    requires forall k :: 0 <= k < |u| ==> Leq(o, y, u[k])
    requires Leq(o, y, x)
    requires multiset(t) == multiset(u) + multiset{x}
    ensures forall j :: 0 <= j < |t| ==> Leq(o, y, t[j])
  {
    forall j | 0 <= j < |t| ensures Leq(o, y, t[j]) {
      assert t[j] in multiset(t);
      if t[j] != x {
        assert t[j] in multiset(u);
        var k :| 0 <= k < |u| && u[k] == t[j];
      }
    }
  }

  /** `[...s].sort(cmp)` with a comparator consistent with `o`: a stable
      insertion sort. */
  function SortBy(o: Order, s: seq<Book>): (r: seq<Book>)
    ensures Sorted(o, r)
    ensures multiset(r) == multiset(s)
  {
    if s == [] then []
    else
      assert s == [s[0]] + s[1..];
      Insert(o, s[0], SortBy(o, s[1..]))
  }

  /** Sorting a list that is already in order leaves it as it is. */
  lemma {:induction false} SortBySorted(o: Order, s: seq<Book>)
    requires Sorted(o, s)
    ensures SortBy(o, s) == s
  {
    if s != [] {
      assert Sorted(o, s[1..]);
      SortBySorted(o, s[1..]);
      assert s == [s[0]] + s[1..];
    }
  }
}
