/** Audit-drip's walk and its cursor: the order files are visited in, and where a later fire resumes. */
module DripWalk {
  import opened Wrappers
  import opened AuditCore
  import opened Layouts
  import opened Ordering

  /** The order of the tuples (computer, family, shard, file_name) */
  predicate ItemLess(a: Item, b: Item) {
    || Less(a.computer, b.computer)
    || (a.computer == b.computer
        && (|| Less(a.family, b.family)
            || (a.family == b.family && PairLess((a.shard, a.name), (b.shard, b.name)))))
  }

  lemma ItemsOrdered(a: Item, b: Item, c: Item)
    ensures !ItemLess(a, a) && (ItemLess(a, b) ==> !ItemLess(b, a)) && (a == b || ItemLess(a, b) || ItemLess(b, a))
    ensures ItemLess(a, b) && ItemLess(b, c) ==> ItemLess(a, c)
  {
    hide Less, PairLess;
    StringsOrdered();
    PairsOrdered();
    LessTotal(a.computer, b.computer);
    LessTotal(a.family, b.family);
    PairTotal((a.shard, a.name), (b.shard, b.name));
  }

  ghost predicate Increasing(w: seq<Item>) {
    forall i, j :: 0 <= i < j < |w| ==> ItemLess(w[i], w[j])
  }

  /* ---- build_walk ---- */

  predicate ByComputer(a: Layout, b: Layout) { Less(a.computer, b.computer) }

  function FamilyWalk(l: Layout, kind: string): (w: seq<Item>)
    ensures forall x :: x in w ==> x.computer == l.computer && x.family == kind
  {
    Items(l.computer, kind, Sort(PairLess, FamilyItems(l, kind)))
  }

  /** One computer's families, in OBJECT_FAMILIES order. */
  function LayoutWalk(l: Layout): seq<Item> {
    FamilyWalk(l, BLOBPACKS) + FamilyWalk(l, TREEPACKS) + FamilyWalk(l, LARGEBLOBPACKS) + FamilyWalk(l, STANDARDOBJECTS)
  }

  function WalkOf(sorted: seq<Layout>): seq<Item> {
    if sorted == [] then [] else WalkOf(sorted[..|sorted| - 1]) + LayoutWalk(sorted[|sorted| - 1])
  }

  function Walk(layouts: seq<Layout>): seq<Item> {
    WalkOf(Sort(ByComputer, layouts))
  }

  /** build_walk */
  method BuildWalk(layouts: seq<Layout>) returns (out: seq<Item>)
    ensures out == Walk(layouts)
  {
    hide Sort, LayoutWalk, ByComputer;
    out := [];
    var sorted := Sort(ByComputer, layouts);
    var n := 0;
    while n < |sorted|
      invariant 0 <= n <= |sorted| && out == WalkOf(sorted[..n])
    {
      assert sorted[..n + 1][..n] == sorted[..n];
      out := AddLayout(sorted[n], out);
      n := n + 1;
    }
    assert sorted[..n] == sorted;
  }

  method AddLayout(l: Layout, before: seq<Item>) returns (out: seq<Item>)
    ensures out == before + LayoutWalk(l)
  {
    hide FamilyWalk;
    out := before;
    var k := 0;
    while k < |OBJECT_FAMILIES|
      invariant 0 <= k <= 4 && out == before + FamiliesWalk(l, k)
    {
      out := AddFamily(l, OBJECT_FAMILIES[k], out);
      k := k + 1;
    }
    FourFamilies(l);
  }

  method AddFamily(l: Layout, kind: string, before: seq<Item>) returns (out: seq<Item>)
    ensures out == before + FamilyWalk(l, kind)
  {
    hide Sort;
    out := before;
    var files := Sort(PairLess, FamilyItems(l, kind));
    var i := 0;
    while i < |files|
      invariant 0 <= i <= |files| && out == before + Items(l.computer, kind, files)[..i]
    {
      out := out + [Item(l.computer, kind, files[i].0, files[i].1)];
      i := i + 1;
    }
  }

  function FamiliesWalk(l: Layout, k: nat): seq<Item>
    requires k <= 4
  {
    if k == 0 then [] else FamiliesWalk(l, k - 1) + FamilyWalk(l, OBJECT_FAMILIES[k - 1])
  }

  lemma FourFamilies(l: Layout)
    ensures FamiliesWalk(l, 4) == LayoutWalk(l)
  {
    hide FamilyWalk;
    assert FamiliesWalk(l, 1) == FamilyWalk(l, BLOBPACKS);
    assert FamiliesWalk(l, 2) == FamilyWalk(l, BLOBPACKS) + FamilyWalk(l, TREEPACKS);
    assert FamiliesWalk(l, 3) == FamiliesWalk(l, 2) + FamilyWalk(l, LARGEBLOBPACKS);
  }

  /* ---- When the walk is increasing ---- */

  /** A directory listing names nothing twice. */
  ghost predicate Listed(layouts: seq<Layout>) {
    && (forall a, b :: 0 <= a < b < |layouts| ==> layouts[a].computer != layouts[b].computer)
    && (forall l :: l in layouts ==>
          Distinct(l.blobpacks) && Distinct(l.treepacks) && Distinct(l.largeblobpacks) && Distinct(l.standardobjects))
  }

  /** No treepack comes before a file of a family whose name sorts below "treepacks". */
  predicate InOrder(l: Layout) {
    l.treepacks == [] || (l.largeblobpacks == [] && l.standardobjects == [])
  }

  lemma IncreasingJoin(a: seq<Item>, b: seq<Item>)
    ensures Increasing(a + b) <==> Increasing(a) && Increasing(b) && forall x, y :: x in a && y in b ==> ItemLess(x, y)
  {
    var w := a + b;
    if Increasing(w) {
      forall i, j | 0 <= i < j < |a| ensures ItemLess(a[i], a[j]) { assert w[i] == a[i] && w[j] == a[j]; }
      forall i, j | 0 <= i < j < |b| ensures ItemLess(b[i], b[j]) { assert w[|a| + i] == b[i] && w[|a| + j] == b[j]; }
      forall x, y | x in a && y in b ensures ItemLess(x, y) {
        var i :| 0 <= i < |a| && a[i] == x;
        var j :| 0 <= j < |b| && b[j] == y;
        assert w[i] == x && w[|a| + j] == y;
      }
    }
  }

  lemma FamilyIncreasing(l: Layout, kind: string)
    requires Distinct(FamilyItems(l, kind))
    ensures Increasing(FamilyWalk(l, kind)) && (FamilyWalk(l, kind) == [] <==> FamilyItems(l, kind) == [])
  {
    hide Sort, PairLess, Less, FamilyItems;
    var files := FamilyItems(l, kind);
    var s := Sort(PairLess, files);
    PairsOrdered();
    SortSorts(PairLess, files);
    SameCounts(s, files);
    assert |s| == |multiset(s)| == |files|;
    forall i, j | 0 <= i < j < |s| ensures PairLess(s[i], s[j]) {
      PairTotal(s[i], s[j]);
    }
  }

  lemma FamilyNames()
    ensures Less(BLOBPACKS, TREEPACKS) && Less(BLOBPACKS, LARGEBLOBPACKS) && Less(BLOBPACKS, STANDARDOBJECTS)
    ensures Less(LARGEBLOBPACKS, STANDARDOBJECTS) && !Less(TREEPACKS, LARGEBLOBPACKS)
        && !Less(TREEPACKS, STANDARDOBJECTS)
    ensures TREEPACKS != LARGEBLOBPACKS && TREEPACKS != STANDARDOBJECTS
    ensures Less(LARGEBLOBPACKS, TREEPACKS) && Less(STANDARDOBJECTS, TREEPACKS)
  {}

  lemma LayoutIncreasing(l: Layout)
    requires Distinct(l.blobpacks) && Distinct(l.treepacks) && Distinct(l.largeblobpacks) && Distinct(l.standardobjects)
    ensures Increasing(LayoutWalk(l)) <==> InOrder(l)
  {
    hide Less, FamilyWalk, PairLess, Increasing;
    FamilyNames();
    FamilyIncreasing(l, BLOBPACKS);
    FamilyIncreasing(l, TREEPACKS);
    FamilyIncreasing(l, LARGEBLOBPACKS);
    FamilyIncreasing(l, STANDARDOBJECTS);
    var (b, t, g, s) := (FamilyWalk(l, BLOBPACKS), FamilyWalk(l, TREEPACKS), FamilyWalk(l, LARGEBLOBPACKS),
        FamilyWalk(l, STANDARDOBJECTS));
    IncreasingJoin(b, t);
    IncreasingJoin(b + t, g);
    IncreasingJoin(b + t + g, s);
    LessIrreflexive(l.computer);
    if t != [] && g != [] {
      assert t[0] in t && t[0] in b + t && g[0] in g && !ItemLess(t[0], g[0]);
    }
    if t != [] && s != [] {
      assert t[0] in t && t[0] in b + t + g && s[0] in s && !ItemLess(t[0], s[0]);
    }
  }

  ghost predicate Rising(sorted: seq<Layout>) {
    forall a, b :: 0 <= a < b < |sorted| ==> Less(sorted[a].computer, sorted[b].computer)
  }

  lemma {:induction false} WalkOfIncreasing(sorted: seq<Layout>)
    requires Rising(sorted)
    requires forall l :: l in sorted ==>
        Distinct(l.blobpacks) && Distinct(l.treepacks) && Distinct(l.largeblobpacks) && Distinct(l.standardobjects)
    ensures Increasing(WalkOf(sorted)) <==> forall l :: l in sorted ==> InOrder(l)
    ensures forall x :: x in WalkOf(sorted) ==> exists a :: 0 <= a < |sorted| && x.computer == sorted[a].computer
    decreases |sorted|
  {
    hide Less, InOrder, Increasing, LayoutWalk;
    if sorted == [] {
      EmptyIncreasing();
    } else {
      var (rest, l) := (sorted[..|sorted| - 1], sorted[|sorted| - 1]);
      assert sorted == rest + [l];
      WalkOfIncreasing(rest);
      LayoutIncreasing(l);
      LayoutWalkOf(l);
      IncreasingJoin(WalkOf(rest), LayoutWalk(l));
    }
  }

  lemma EmptyIncreasing()
    ensures Increasing([])
  {}

  lemma LayoutWalkOf(l: Layout)
    ensures forall x :: x in LayoutWalk(l) ==> x.computer == l.computer
  {
    hide FamilyWalk;
  }

  /**
   The walk is strictly increasing in the cursor's order exactly when no computer has treepacks beside later families.
  */
  lemma WalkIncreasingIff(layouts: seq<Layout>)
    requires Listed(layouts)
    ensures Increasing(Walk(layouts)) <==> forall l :: l in layouts ==> InOrder(l)
  {
    hide InOrder, Increasing, Sort, Less, WalkOf, Rising;
    SortedLayouts(layouts);
    WalkOfIncreasing(Sort(ByComputer, layouts));
  }

  lemma SortedLayouts(layouts: seq<Layout>)
    requires Listed(layouts)
    ensures var s := Sort(ByComputer, layouts);
            Rising(s) && forall l :: l in s <==> l in layouts
  {
    hide Sort, Less, Distinct;
    StringsOrdered();
    var s := Sort(ByComputer, layouts);
    assert WeakOrder(ByComputer);
    SortSorts(ByComputer, layouts);
    DistinctComputers(layouts);
    SameCounts(s, layouts);
    forall a, b | 0 <= a < b < |s| ensures Less(s[a].computer, s[b].computer) {
      Apart(s, a, b);
      var i :| 0 <= i < |layouts| && layouts[i] == s[a];
      var k :| 0 <= k < |layouts| && layouts[k] == s[b];
      LessTotal(s[a].computer, s[b].computer);
      assert !ByComputer(s[b], s[a]);
    }
  }

  lemma Apart<T>(s: seq<T>, a: nat, b: nat)
    requires Distinct(s) && a < b < |s|
    ensures s[a] != s[b]
  {}

  lemma DistinctComputers(layouts: seq<Layout>)
    requires Listed(layouts)
    ensures Distinct(layouts)
  {}
}
