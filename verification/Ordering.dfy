/** Python's order on strings and on tuples of strings, and its stable `sorted`. */
module Ordering {
  /** a < b for strings */
  predicate Less(a: string, b: string)
    decreases |a|
  {
    b != "" && (a == "" || a[0] < b[0] || (a[0] == b[0] && Less(a[1..], b[1..])))
  }

  lemma {:induction false} LessIrreflexive(a: string)
    ensures !Less(a, a)
  {
    if a != "" {
      LessIrreflexive(a[1..]);
    }
  }

  lemma {:induction false} LessTransitive(a: string, b: string, c: string)
    requires Less(a, b) && Less(b, c)
    ensures Less(a, c)
    decreases |a|
  {
    if a != "" && a[0] == b[0] && b[0] == c[0] {
      LessTransitive(a[1..], b[1..], c[1..]);
    }
  }

  lemma {:induction false} LessTotal(a: string, b: string)
    ensures a == b || Less(a, b) || Less(b, a)
    decreases |a|
  {
    if a != "" && b != "" && a[0] == b[0] {
      LessTotal(a[1..], b[1..]);
      if a[1..] == b[1..] {
        assert a == [a[0]] + a[1..] && b == [b[0]] + b[1..];
      }
    }
  }

  predicate PairLess(a: (string, string), b: (string, string)) {
    Less(a.0, b.0) || (a.0 == b.0 && Less(a.1, b.1))
  }

  /** A strict order in which `same` elements are those neither of which is below the other. */
  ghost predicate WeakOrder<T(!new)>(less: (T, T) -> bool) {
    && (forall a, b :: less(a, b) ==> !less(b, a))
    && (forall a, b, c :: less(a, b) && less(b, c) ==> less(a, c))
    && (forall a, b, c :: less(a, c) ==> less(a, b) || less(b, c))
  }

  lemma StringsOrdered()
    ensures WeakOrder(Less)
  {
    hide Less;
    forall a, b | Less(a, b) ensures !Less(b, a) {
      if Less(b, a) {
        LessTransitive(a, b, a);
        LessIrreflexive(a);
      }
    }
    forall a, b, c | Less(a, b) && Less(b, c) ensures Less(a, c) { LessTransitive(a, b, c); }
    forall a, b, c | Less(a, c) ensures Less(a, b) || Less(b, c) {
      LessTotal(a, b);
      if Less(b, a) {
        LessTransitive(b, a, c);
      }
    }
  }

  lemma PairsOrdered()
    ensures WeakOrder(PairLess)
  {
    hide Less;
    StringsOrdered();
    forall a, b, c | PairLess(a, c) ensures PairLess(a, b) || PairLess(b, c) {
      LessTotal(a.0, b.0);
      LessTotal(b.0, c.0);
      LessTotal(a.1, b.1);
      LessTotal(b.1, c.1);
    }
  }

  lemma PairTotal(a: (string, string), b: (string, string))
    ensures a == b || PairLess(a, b) || PairLess(b, a)
  {
    LessTotal(a.0, b.0);
    LessTotal(a.1, b.1);
  }

  /* ---- sorted(xs) ---- */

  function Insert<T>(less: (T, T) -> bool, x: T, ys: seq<T>): seq<T> {
    if ys == [] then [x]
    else if less(ys[0], x) then [ys[0]] + Insert(less, x, ys[1..])
    else [x] + ys
  }

  /** A stable sort: of two elements neither below the other, the one met first stays first. */
  function Sort<T>(less: (T, T) -> bool, xs: seq<T>): seq<T> {
    if xs == [] then [] else Insert(less, xs[0], Sort(less, xs[1..]))
  }

  ghost predicate Sorted<T>(less: (T, T) -> bool, xs: seq<T>) {
    forall i, j :: 0 <= i < j < |xs| ==> !less(xs[j], xs[i])
  }

  lemma {:induction false} InsertKeeps<T>(less: (T, T) -> bool, x: T, ys: seq<T>)
    ensures multiset(Insert(less, x, ys)) == multiset{x} + multiset(ys)
    decreases |ys|
  {
    if ys != [] {
      assert ys == [ys[0]] + ys[1..];
      InsertKeeps(less, x, ys[1..]);
    }
  }

  lemma {:induction false} InsertSorted<T(!new)>(less: (T, T) -> bool, x: T, ys: seq<T>)
    requires WeakOrder(less) && Sorted(less, ys)
    ensures Sorted(less, Insert(less, x, ys))
    decreases |ys|
  {
    if ys != [] && less(ys[0], x) {
      InsertSorted(less, x, ys[1..]);
      InsertKeeps(less, x, ys[1..]);
      var r := Insert(less, x, ys[1..]);
      forall k | 0 <= k < |r| ensures !less(r[k], ys[0]) {
        assert r[k] in multiset(r);
        if r[k] != x {
          assert r[k] in ys[1..];
        }
      }
    }
  }

  /** sorted() permutes its input and leaves no element above a later one. */
  lemma {:induction false} SortSorts<T(!new)>(less: (T, T) -> bool, xs: seq<T>)
    requires WeakOrder(less)
    ensures Sorted(less, Sort(less, xs)) && multiset(Sort(less, xs)) == multiset(xs)
    decreases |xs|
  {
    hide Insert, WeakOrder;
    if xs != [] {
      SortSorts(less, xs[1..]);
      InsertSorted(less, xs[0], Sort(less, xs[1..]));
      InsertKeeps(less, xs[0], Sort(less, xs[1..]));
      assert xs == [xs[0]] + xs[1..];
    }
  }

  ghost predicate Distinct<T>(xs: seq<T>) {
    forall i, j :: 0 <= i < j < |xs| ==> xs[i] != xs[j]
  }

  /** Without repetitions, each element occurs once. */
  lemma {:induction false} DistinctCounts<T>(xs: seq<T>)
    ensures Distinct(xs) <==> forall x :: x in xs ==> multiset(xs)[x] == 1
    decreases |xs|
  {
    if xs != [] {
      var (rest, last) := (xs[..|xs| - 1], xs[|xs| - 1]);
      assert xs == rest + [last];
      DistinctCounts(rest);
      if Distinct(xs) {
        assert last !in rest;
        assert forall x :: x in rest ==> multiset(rest)[x] == 1;
      }
      if forall x :: x in xs ==> multiset(xs)[x] == 1 {
        assert forall x :: x in rest ==> x in xs && multiset(rest)[x] == 1;
        assert last !in rest;
      }
    }
  }

  lemma SameCounts<T>(xs: seq<T>, ys: seq<T>)
    requires multiset(xs) == multiset(ys)
    ensures Distinct(xs) <==> Distinct(ys)
    ensures forall x :: x in xs <==> x in ys
  {
    DistinctCounts(xs);
    DistinctCounts(ys);
    assert forall x :: x in xs <==> x in multiset(xs);
    assert forall x :: x in ys <==> x in multiset(ys);
  }
}
