/** Where backup records are kept, listing them in order, and finding the latest. */
module RecordLayout {
  import opened Wrappers
  import opened Ordering

  const SUFFIX := ".backuprecord"

  predicate IsDigits(s: string) {
    s != "" && forall i :: 0 <= i < |s| ==> '0' <= s[i] <= '9'
  }

  /** int(s) of decimal digits */
  function Value(s: string): nat
    requires forall i :: 0 <= i < |s| ==> '0' <= s[i] <= '9'
  {
    if s == "" then 0 else 10 * Value(s[..|s| - 1]) + (s[|s| - 1] as int - '0' as int)
  }

  /** A backuprecords directory: its listing, if it is there and can be listed, and its subdirectories' listings. */
  datatype Folder = Folder(base: string, outer: Option<seq<string>>, inner: string -> Option<seq<string>>)

  datatype Rec = Rec(outer: string, num: nat, name: string)

  function PathOf(f: Folder, r: Rec): string { OuterPath(f, r.outer) + "/" + r.name }

  function OuterPath(f: Folder, outer: string): string { f.base + "/" + outer }

  predicate IsOuter(s: string) { IsDigits(s) && |s| == 5 }

  predicate IsRecordName(n: string) {
    |n| > |SUFFIX| && n[|n| - |SUFFIX|..] == SUFFIX && IsDigits(n[..|n| - |SUFFIX|])
  }

  function NumOf(n: string): nat
    requires IsRecordName(n)
  {
    Value(n[..|n| - |SUFFIX|])
  }

  /** The records among the names of one outer directory. */
  function RecordsIn(outer: string, names: seq<string>): seq<Rec> {
    if names == [] then []
    else
      var (rest, n) := (names[..|names| - 1], names[|names| - 1]);
      RecordsIn(outer, rest) + if IsRecordName(n) then [Rec(outer, NumOf(n), n)] else []
  }

  function RecordsOf(f: Folder, outer: string): seq<Rec> {
    if IsOuter(outer) && f.inner(outer).Some? then RecordsIn(outer, f.inner(outer).value) else []
  }

  function AllRecords(f: Folder, outers: seq<string>): seq<Rec> {
    if outers == [] then [] else AllRecords(f, outers[..|outers| - 1]) + RecordsOf(f, outers[|outers| - 1])
  }

  function Records(f: Folder): seq<Rec> {
    if f.outer.Some? then AllRecords(f, f.outer.value) else []
  }

  /** The order of ((outer, num), path). */
  predicate Earlier(f: Folder, a: Rec, b: Rec) {
    Less(a.outer, b.outer) || (a.outer == b.outer
        && (a.num < b.num || (a.num == b.num && Less(PathOf(f, a), PathOf(f, b)))))
  }

  function By(f: Folder): (Rec, Rec) -> bool { (a, b) => Earlier(f, a, b) }

  function Paths(f: Folder, rs: seq<Rec>): (ps: seq<string>)
    ensures |ps| == |rs| && forall i :: 0 <= i < |rs| ==> ps[i] == PathOf(f, rs[i])
  {
    seq(|rs|, i requires 0 <= i < |rs| => PathOf(f, rs[i]))
  }

  /** list_backuprecords */
  method ListRecords(f: Folder) returns (paths: seq<string>)
    ensures paths == Paths(f, Sort(By(f), Records(f)))
  {
    hide Sort, IsOuter, RecordsIn;
    if f.outer.None? {
      NothingSorted(f);
      return [];
    }
    var outers := f.outer.value;
    var out: seq<Rec> := [];
    for k := 0 to |outers|
      invariant out == AllRecords(f, outers[..k])
    {
      assert outers[..k + 1][..k] == outers[..k];
      if IsOuter(outers[k]) {
        var inner := f.inner(outers[k]);
        if inner.Some? {
          var rs := Rank(outers[k], inner.value);
          out := out + rs;
        }
      }
    }
    assert outers[..|outers|] == outers;
    return Paths(f, Sort(By(f), out));
  }

  lemma NothingSorted(f: Folder)
    ensures Sort(By(f), []) == []
  {}

  /** The loop over one outer directory's names. */
  method Rank(outer: string, names: seq<string>) returns (rs: seq<Rec>)
    ensures rs == RecordsIn(outer, names)
  {
    hide IsRecordName, NumOf;
    rs := [];
    for k := 0 to |names|
      invariant rs == RecordsIn(outer, names[..k])
    {
      assert names[..k + 1][..k] == names[..k];
      if IsRecordName(names[k]) {
        rs := rs + [Rec(outer, NumOf(names[k]), names[k])];
      }
    }
    assert names[..|names|] == names;
  }

  predicate Later(a: string, b: string) { Less(b, a) }

  /** (num, name) in descending order */
  predicate Higher(a: Rec, b: Rec) { a.num > b.num || (a.num == b.num && Less(b.name, a.name)) }

  ghost predicate Maximal(f: Folder, rs: seq<Rec>, r: Rec) {
    r in rs && forall x :: x in rs ==> !Earlier(f, r, x)
  }

  /**
   find_latest_backuprecord: outer directories from the last down, and the highest record of the first that has any.
  */
  method FindLatest(f: Folder) returns (path: Option<string>)
    ensures path.None? <==> Records(f) == []
    ensures path.Some? ==> exists r :: Maximal(f, Records(f), r) && path.value == PathOf(f, r)
  {
    hide Sort, Less, RecordsIn, IsOuter, RecordsOf;
    if f.outer.None? {
      return None;
    }
    var outers := f.outer.value;
    var valid := Outers(outers);
    var sorted := Sort(Later, valid);
    DescendingOuters(f, outers, valid);
    var k := 0;
    while k < |sorted|
      invariant 0 <= k <= |sorted|
      invariant forall i :: 0 <= i < k ==> RecordsOf(f, sorted[i]) == []
    {
      var outer := sorted[k];
      var inner := f.inner(outer);
      if inner.Some? {
        var ranked := Rank(outer, inner.value);
        UsesRecordsOf(f, outer);
        if ranked != [] {
          HighestFirst(ranked);
          var best := Sort(Higher, ranked)[0];
          TopIsMaximal(f, outers, sorted, k, best);
          return Some(OuterPath(f, outer) + "/" + best.name);
        }
      } else {
        NotListed(f, outer);
      }
      k := k + 1;
    }
    NoRecords(f, outers, sorted);
    return None;
  }

  method Outers(names: seq<string>) returns (outers: seq<string>)
    ensures forall s :: s in outers <==> s in names && IsOuter(s)
  {
    outers := [];
    for k := 0 to |names|
      invariant forall s :: s in outers <==> s in names[..k] && IsOuter(s)
    {
      if IsOuter(names[k]) {
        outers := outers + [names[k]];
      }
    }
  }

  lemma DescendingOuters(f: Folder, names: seq<string>, valid: seq<string>)
    requires forall s :: s in valid <==> s in names && IsOuter(s)
    ensures var sorted := Sort(Later, valid);
            && (forall i, j :: 0 <= i < j < |sorted| ==> !Less(sorted[i], sorted[j]))
            && (forall s :: s in sorted <==> s in names && IsOuter(s))
  {
    hide Sort, Less, IsOuter;
    StringsOrdered();
    LaterOrdered();
    SortSorts(Later, valid);
    SameCounts(Sort(Later, valid), valid);
  }

  lemma LaterOrdered()
    ensures WeakOrder(Later)
  {
    hide Less;
    StringsOrdered();
    forall a, b, c | Later(a, c) ensures Later(a, b) || Later(b, c) {
      assert Less(c, b) || Less(b, a);
    }
  }

  lemma HigherOrdered()
    ensures WeakOrder(Higher)
  {
    hide Less;
    StringsOrdered();
    forall a, b, c | Higher(a, c) ensures Higher(a, b) || Higher(b, c) {
      LessTotal(a.name, b.name);
      LessTotal(b.name, c.name);
    }
  }

  lemma UsesRecordsOf(f: Folder, outer: string)
    ensures IsOuter(outer) && f.inner(outer).Some? ==> RecordsOf(f, outer) == RecordsIn(outer, f.inner(outer).value)
  {}

  lemma NotListed(f: Folder, outer: string)
    ensures f.inner(outer).None? ==> RecordsOf(f, outer) == []
  {}

  /** The first of the descending ranking is not below any. */
  lemma HighestFirst(ranked: seq<Rec>)
    requires ranked != []
    ensures var sorted := Sort(Higher, ranked);
            sorted != [] && sorted[0] in ranked && forall x :: x in ranked ==> !Higher(x, sorted[0])
  {
    hide Sort, Higher;
    HigherOrdered();
    SortSorts(Higher, ranked);
    var sorted := Sort(Higher, ranked);
    SameCounts(sorted, ranked);
    assert ranked[0] in sorted;
    Irreflexive(sorted[0]);
    forall x | x in ranked ensures !Higher(x, sorted[0]) {
      var i :| 0 <= i < |sorted| && sorted[i] == x;
    }
  }

  lemma Irreflexive(r: Rec)
    ensures !Higher(r, r)
  {
    LessIrreflexive(r.name);
  }

  lemma {:induction false} RecordsInShape(outer: string, names: seq<string>)
    ensures forall r :: r in RecordsIn(outer, names) ==> r.outer == outer
    decreases |names|
  {
    hide IsRecordName;
    if names != [] {
      RecordsInShape(outer, names[..|names| - 1]);
    }
  }

  lemma {:induction false} RecordsFrom(f: Folder, outers: seq<string>)
    ensures forall r :: r in AllRecords(f, outers) <==> r.outer in outers && r in RecordsOf(f, r.outer)
    decreases |outers|
  {
    hide RecordsIn, IsOuter;
    if outers != [] {
      var (rest, last) := (outers[..|outers| - 1], outers[|outers| - 1]);
      assert outers == rest + [last];
      RecordsFrom(f, rest);
      OfOuter(f, last);
    }
  }

  lemma OfOuter(f: Folder, outer: string)
    ensures forall r :: r in RecordsOf(f, outer) ==> r.outer == outer && IsOuter(outer)
  {
    hide RecordsIn;
    if IsOuter(outer) && f.inner(outer).Some? {
      RecordsInShape(outer, f.inner(outer).value);
    }
  }

  /** Within one outer directory the order of paths is the order of names. */
  lemma {:induction false} SamePrefix(p: string, x: string, y: string)
    ensures Less(p + x, p + y) <==> Less(x, y)
    decreases |p|
  {
    if p != "" {
      assert (p + x)[1..] == p[1..] + x && (p + y)[1..] == p[1..] + y;
      SamePrefix(p[1..], x, y);
    } else {
      assert p + x == x && p + y == y;
    }
  }

  lemma TopIsMaximal(f: Folder, outers: seq<string>, sorted: seq<string>, k: nat, best: Rec)
    requires f.outer == Some(outers) && k < |sorted|
    requires forall i, j :: 0 <= i < j < |sorted| ==> !Less(sorted[i], sorted[j])
    requires forall s :: s in sorted <==> s in outers && IsOuter(s)
    requires forall i :: 0 <= i < k ==> RecordsOf(f, sorted[i]) == []
    requires best in RecordsOf(f, sorted[k]) && forall x :: x in RecordsOf(f, sorted[k]) ==> !Higher(x, best)
    ensures Maximal(f, Records(f), best) && OuterPath(f, sorted[k]) + "/" + best.name == PathOf(f, best)
  {
    hide Less, RecordsOf, IsOuter;
    RecordsFrom(f, outers);
    OfOuter(f, sorted[k]);
    forall x | x in Records(f) ensures !Earlier(f, best, x) {
      OfOuter(f, x.outer);
      assert x.outer in sorted;
      var i :| 0 <= i < |sorted| && sorted[i] == x.outer;
      LessIrreflexive(best.outer);
      if i > k {
        assert !Less(sorted[k], sorted[i]);
      }
      if x.outer == best.outer {
        SamePrefix(OuterPath(f, best.outer) + "/", best.name, x.name);
      }
    }
  }

  lemma NoRecords(f: Folder, outers: seq<string>, sorted: seq<string>)
    requires f.outer == Some(outers) && forall s :: s in sorted <==> s in outers && IsOuter(s)
    requires forall i :: 0 <= i < |sorted| ==> RecordsOf(f, sorted[i]) == []
    ensures Records(f) == []
  {
    hide RecordsOf, IsOuter, Records;
    forall r ensures r !in Records(f) {
      OuterIsSorted(f, outers, sorted, r);
    }
    FirstIsIn(Records(f));
  }

  lemma FirstIsIn(rs: seq<Rec>)
    ensures rs == [] || exists r :: r in rs
  {
    if rs != [] {
      assert rs[0] in rs;
    }
  }

  lemma OuterIsSorted(f: Folder, outers: seq<string>, sorted: seq<string>, r: Rec)
    requires f.outer == Some(outers) && forall s :: s in sorted <==> s in outers && IsOuter(s)
    ensures r in Records(f) ==> exists i :: 0 <= i < |sorted| && r in RecordsOf(f, sorted[i])
  {
    hide RecordsOf, IsOuter;
    if r in Records(f) {
      RecordsFrom(f, outers);
      OfOuter(f, r.outer);
      assert r.outer in sorted;
    }
  }

  /* ---- What is listed ---- */

  /** The folder has a directory named by five digits and in it a file named by digits and the suffix. */
  predicate RecordFile(f: Folder, outer: string, stem: string) {
    && f.outer.Some? && outer in f.outer.value && |outer| == 5 && (forall i :: 0 <= i < 5 ==> '0' <= outer[i] <= '9')
    && f.inner(outer).Some? && stem + ".backuprecord" in f.inner(outer).value
    && stem != "" && forall i :: 0 <= i < |stem| ==> '0' <= stem[i] <= '9'
  }

  /** Exactly the record files are listed, each under its path. */
  lemma ListedExactly(f: Folder, p: string)
    ensures p in Paths(f, Sort(By(f), Records(f))) <==>
        exists outer, stem :: RecordFile(f, outer, stem) && p == f.base + "/" + outer + "/" + (stem + ".backuprecord")
  {
    hide Sort, By, RecordsIn, Records, NumOf;
    SortedRecords(f, Records(f));
    var (sorted, paths) := (Sort(By(f), Records(f)), Paths(f, Sort(By(f), Records(f))));
    if p in paths {
      var i :| 0 <= i < |paths| && paths[i] == p;
      assert sorted[i] in sorted;
      RecordIsFile(f, sorted[i]);
    }
    forall outer, stem | RecordFile(f, outer, stem) && p == f.base + "/" + outer + "/" + (stem + ".backuprecord")
      ensures p in paths
    {
      FileIsRecord(f, outer, stem);
      var r := Rec(outer, NumOf(stem + SUFFIX), stem + SUFFIX);
      var i :| 0 <= i < |sorted| && sorted[i] == r;
      assert paths[i] == p;
    }
  }

  lemma RecordIsFile(f: Folder, r: Rec)
    requires r in Records(f)
    ensures exists stem :: RecordFile(f, r.outer, stem) && r.name == stem + ".backuprecord"
  {
    RecordOfPath(f, r);
    RecordsFrom(f, f.outer.value);
    hide RecordsIn, AllRecords;
    RecordNamed(r.outer, f.inner(r.outer).value);
    var stem := r.name[..|r.name| - |SUFFIX|];
    assert r.name == stem + SUFFIX;
    assert RecordFile(f, r.outer, stem);
  }

  lemma {:induction false} RecordNamed(outer: string, names: seq<string>)
    ensures forall r :: r in RecordsIn(outer, names) ==> r.name in names
    decreases |names|
  {
    hide IsRecordName, NumOf;
    if names != [] {
      RecordNamed(outer, names[..|names| - 1]);
      assert names[|names| - 1] in names;
    }
  }

  lemma FileIsRecord(f: Folder, outer: string, stem: string)
    requires RecordFile(f, outer, stem)
    ensures IsRecordName(stem + SUFFIX) && Rec(outer, NumOf(stem + SUFFIX), stem + SUFFIX) in Records(f)
  {
    var n := stem + SUFFIX;
    assert n[|n| - |SUFFIX|..] == SUFFIX && n[..|n| - |SUFFIX|] == stem;
    hide RecordsIn, AllRecords, NumOf;
    NamesGiveRecords(outer, f.inner(outer).value);
    RecordsFrom(f, f.outer.value);
  }

  /* ---- The two agree ---- */

  lemma RecordsOrdered(f: Folder)
    ensures WeakOrder(By(f))
  {
    hide Less, PathOf;
    StringsOrdered();
    forall a, b, c | By(f)(a, c) ensures By(f)(a, b) || By(f)(b, c) {
      LessTotal(a.outer, b.outer);
      LessTotal(b.outer, c.outer);
      LessTotal(PathOf(f, a), PathOf(f, b));
      LessTotal(PathOf(f, b), PathOf(f, c));
    }
  }

  /** The latest record found is the last one listed, for every listing, ties included. */
  lemma LatestIsLastListed(f: Folder, paths: seq<string>, r: Rec)
    requires paths == Paths(f, Sort(By(f), Records(f))) && Maximal(f, Records(f), r)
    ensures paths != [] && paths[|paths| - 1] == PathOf(f, r)
  {
    hide Sort, Less, Records, PathOf, Earlier;
    var rs := Records(f);
    SortedRecords(f, rs);
    var sorted := Sort(By(f), rs);
    hide By;
    assert r in sorted;
    var i :| 0 <= i < |sorted| && sorted[i] == r;
    var last := sorted[|sorted| - 1];
    assert last in sorted && last in rs;
    SamePlace(f, r, last);
  }

  lemma SortedRecords(f: Folder, rs: seq<Rec>)
    ensures var s := Sort(By(f), rs);
            && (forall i, j :: 0 <= i < j < |s| ==> !Earlier(f, s[j], s[i])) && (forall r :: r in s <==> r in rs)
  {
    hide Sort, Earlier;
    RecordsOrdered(f);
    SortSorts(By(f), rs);
    SameCounts(Sort(By(f), rs), rs);
  }

  lemma SamePlace(f: Folder, a: Rec, b: Rec)
    requires !Earlier(f, a, b) && (a == b || !Earlier(f, b, a))
    ensures PathOf(f, a) == PathOf(f, b)
  {
    hide Less, PathOf;
    LessTotal(a.outer, b.outer);
    LessTotal(PathOf(f, a), PathOf(f, b));
  }

  /* ---- Records written at a time ---- */

  function Digit(d: nat): char
    requires d < 10
  {
    "0123456789"[d]
  }

  /** n in decimal, padded with zeros to `width`; the last `width` digits of a longer one. */
  function Decimal(n: nat, width: nat): (s: string)
    ensures |s| == width && forall i :: 0 <= i < width ==> '0' <= s[i] <= '9'
  {
    if width == 0 then "" else Decimal(n / 10, width - 1) + [Digit(n % 10)]
  }

  function Pow10(w: nat): nat {
    if w == 0 then 1 else 10 * Pow10(w - 1)
  }

  lemma ValueAppend(s: string, c: char)
    requires (forall i :: 0 <= i < |s| ==> '0' <= s[i] <= '9') && '0' <= c <= '9'
    ensures Value(s + [c]) == 10 * Value(s) + (c as int - '0' as int)
  {
    assert (s + [c])[..|s|] == s;
  }

  lemma DigitValue(d: nat)
    requires d < 10
    ensures '0' <= Digit(d) <= '9' && Digit(d) as int - '0' as int == d
  {}

  lemma {:induction false} DecimalValue(n: nat, width: nat)
    requires n < Pow10(width)
    ensures Value(Decimal(n, width)) == n
  {
    if width > 0 {
      var (rest, last) := (Decimal(n / 10, width - 1), Digit(n % 10));
      assert Decimal(n, width) == rest + [last] && Pow10(width) == 10 * Pow10(width - 1);
      hide Decimal, Value, Pow10, Digit;
      DecimalValue(n / 10, width - 1);
      DigitValue(n % 10);
      ValueAppend(rest, last);
    } else {
      assert n == 0;
    }
  }

  lemma {:induction false} LessAppend(x: string, y: string, c: char, d: char)
    requires |x| == |y|
    ensures Less(x + [c], y + [d]) <==> Less(x, y) || (x == y && c < d)
    decreases |x|
  {
    if x == "" {
      assert x + [c] == [c] && y + [d] == [d];
      assert [c][1..] == [] == [d][1..];
    } else {
      LessAppend(x[1..], y[1..], c, d);
      LessHeads(x, y);
      LessHeads(x + [c], y + [d]);
      hide Less;
      assert (x + [c])[1..] == x[1..] + [c] && (y + [d])[1..] == y[1..] + [d];
      assert x == [x[0]] + x[1..] && y == [y[0]] + y[1..];
    }
  }

  lemma LessHeads(x: string, y: string)
    requires x != "" && y != ""
    ensures Less(x, y) <==> x[0] < y[0] || (x[0] == y[0] && Less(x[1..], y[1..]))
  {}

  /** Padded numbers sort as numbers. */
  lemma {:induction false} DecimalOrder(a: nat, b: nat, width: nat)
    requires a < b < Pow10(width)
    ensures Less(Decimal(a, width), Decimal(b, width))
    decreases width
  {
    if width > 0 {
      LessAppend(Decimal(a / 10, width - 1), Decimal(b / 10, width - 1), Digit(a % 10), Digit(b % 10));
      if a / 10 < b / 10 {
        DecimalOrder(a / 10, b / 10, width - 1);
      }
    }
  }

  /** Where the writer puts the record of a backup made at second t. */
  function Bucket(t: nat): string { Decimal(t / 10_000_000, 5) }

  function RecordName(t: nat): string { Decimal(t % 10_000_000, 7) + SUFFIX }

  /** Up to the second 10^12, bucket and name are ones the listing accepts, and bucket and number give the time back. */
  lemma TimeIsKept(t: nat)
    requires t < 1_000_000_000_000
    ensures IsOuter(Bucket(t)) && IsRecordName(RecordName(t))
    ensures Value(Bucket(t)) * 10_000_000 + NumOf(RecordName(t)) == t
  {
    hide Decimal, Value;
    assert Pow10(5) == 100_000 && Pow10(7) == 10_000_000;
    var (n, w) := (RecordName(t), Decimal(t % 10_000_000, 7));
    assert n[|n| - |SUFFIX|..] == SUFFIX && n[..|n| - |SUFFIX|] == w;
    DecimalValue(t / 10_000_000, 5);
    DecimalValue(t % 10_000_000, 7);
  }

  /** The record of a backup made at second t, and the path it is listed under. */
  function RecordAt(t: nat): Rec
    requires IsRecordName(RecordName(t))
  {
    Rec(Bucket(t), NumOf(RecordName(t)), RecordName(t))
  }

  function RecordPath(f: Folder, t: nat): string { OuterPath(f, Bucket(t)) + "/" + RecordName(t) }

  /** The folder lists the record's bucket, and the bucket its name. */
  predicate Holds(f: Folder, t: nat) {
    && f.outer.Some? && Bucket(t) in f.outer.value
    && f.inner(Bucket(t)).Some? && RecordName(t) in f.inner(Bucket(t)).value
  }

  lemma {:induction false} NamesGiveRecords(outer: string, names: seq<string>)
    ensures forall n :: n in names && IsRecordName(n) ==> Rec(outer, NumOf(n), n) in RecordsIn(outer, names)
    ensures forall r :: r in RecordsIn(outer, names) ==> IsRecordName(r.name) && r == Rec(outer, NumOf(r.name), r.name)
    decreases |names|
  {
    hide IsRecordName, NumOf;
    if names != [] {
      var (rest, last) := (names[..|names| - 1], names[|names| - 1]);
      assert names == rest + [last];
      NamesGiveRecords(outer, rest);
    }
  }

  /** A record is determined by its directory and name. */
  lemma RecordOfPath(f: Folder, r: Rec)
    requires r in Records(f)
    ensures IsOuter(r.outer) && IsRecordName(r.name) && r.num == NumOf(r.name)
  {
    hide RecordsIn, IsOuter, IsRecordName, NumOf;
    RecordsFrom(f, f.outer.value);
    OfOuter(f, r.outer);
    InOuter(f, r.outer);
  }

  lemma InOuter(f: Folder, outer: string)
    ensures forall r :: r in RecordsOf(f, outer) ==> IsRecordName(r.name) && r.num == NumOf(r.name)
  {
    hide RecordsIn, IsOuter, IsRecordName, NumOf;
    if IsOuter(outer) && f.inner(outer).Some? {
      NamesGiveRecords(outer, f.inner(outer).value);
    }
  }

  lemma SamePaths(f: Folder, a: Rec, b: Rec)
    requires |a.outer| == |b.outer| && PathOf(f, a) == PathOf(f, b)
    ensures a.outer == b.outer && a.name == b.name
  {
    var (p, q, k) := (PathOf(f, a), PathOf(f, b), |f.base| + 1);
    assert p[k..k + |a.outer|] == a.outer && q[k..k + |b.outer|] == b.outer;
    assert p[k + |a.outer| + 1..] == a.name && q[k + |b.outer| + 1..] == b.name;
  }

  lemma HeldIsRecord(f: Folder, t: nat)
    requires t < 1_000_000_000_000 && Holds(f, t)
    ensures IsRecordName(RecordName(t)) && RecordAt(t) in Records(f) && PathOf(f, RecordAt(t)) == RecordPath(f, t)
  {
    hide RecordsIn, IsRecordName, NumOf, Bucket, RecordName;
    TimeIsKept(t);
    hide IsOuter;
    RecordsFrom(f, f.outer.value);
    NamesGiveRecords(Bucket(t), f.inner(Bucket(t)).value);
  }

  lemma EarlierInTime(f: Folder, t: nat, u: nat)
    requires t < u < 1_000_000_000_000
    ensures IsRecordName(RecordName(t)) && IsRecordName(RecordName(u))
    ensures Earlier(f, RecordAt(t), RecordAt(u)) && RecordAt(t) != RecordAt(u)
  {
    hide Decimal, Value, Less, PathOf, IsRecordName;
    TimeIsKept(t);
    TimeIsKept(u);
    assert Pow10(5) == 100_000;
    if t / 10_000_000 < u / 10_000_000 {
      DecimalOrder(t / 10_000_000, u / 10_000_000, 5);
    }
  }

  /** An element of the listing with a held record's path is that record. */
  lemma ListedRecord(f: Folder, t: nat, i: nat)
    requires t < 1_000_000_000_000 && Holds(f, t)
    requires var paths := Paths(f, Sort(By(f), Records(f))); i < |paths| && paths[i] == RecordPath(f, t)
    ensures IsRecordName(RecordName(t)) && Sort(By(f), Records(f))[i] == RecordAt(t)
  {
    hide Sort, By, Records, IsRecordName, NumOf, PathOf, Bucket, RecordName, Holds;
    HeldIsRecord(f, t);
    SortedRecords(f, Records(f));
    var r := Sort(By(f), Records(f))[i];
    assert r in Sort(By(f), Records(f));
    RecordOfPath(f, r);
    RecordOfPath(f, RecordAt(t));
    SamePaths(f, r, RecordAt(t));
  }

  /** Every occurrence of p comes before every one of q. */
  ghost predicate AllBefore(paths: seq<string>, p: string, q: string) {
    forall i, j :: 0 <= i < |paths| && 0 <= j < |paths| && paths[i] == p && paths[j] == q ==> i < j
  }

  /** Listing order is creation order: two records held are both listed, every occurrence of the earlier one first. */
  lemma ListedInTimeOrder(f: Folder, t: nat, u: nat)
    requires t < u < 1_000_000_000_000 && Holds(f, t) && Holds(f, u)
    ensures var paths := Paths(f, Sort(By(f), Records(f)));
            && RecordPath(f, t) in paths && RecordPath(f, u) in paths
            && AllBefore(paths, RecordPath(f, t), RecordPath(f, u))
  {
    hide Sort, By, Records, IsRecordName, NumOf, PathOf, Bucket, RecordName, Holds, Earlier, RecordPath;
    var sorted := Sort(By(f), Records(f));
    var paths := Paths(f, sorted);
    HeldIsRecord(f, t);
    HeldIsRecord(f, u);
    SortedRecords(f, Records(f));
    EarlierInTime(f, t, u);
    assert RecordAt(t) in sorted && RecordAt(u) in sorted;
    var a :| 0 <= a < |sorted| && sorted[a] == RecordAt(t);
    var b :| 0 <= b < |sorted| && sorted[b] == RecordAt(u);
    assert paths[a] == RecordPath(f, t) && paths[b] == RecordPath(f, u);
    forall i, j | 0 <= i < |paths| && 0 <= j < |paths| && paths[i] == RecordPath(f, t) && paths[j] == RecordPath(f, u)
      ensures i < j
    {
      ListedRecord(f, t, i);
      ListedRecord(f, u, j);
    }
  }
}
