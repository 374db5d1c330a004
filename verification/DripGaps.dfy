/** Where the real family order departs from the cursor's order: what a cut-off sweep misses or repeats. */
module DripGaps {
  import opened Wrappers
  import opened AuditCore
  import opened Layouts
  import opened Ordering
  import opened DripWalk
  import opened DripSweep

  ghost predicate OverOneWalk(fires: seq<Fire>, w: seq<Item>) {
    forall f :: f in fires ==> f.walk == w
  }

  ghost predicate EachOnce(done: seq<Item>, w: seq<Item>) {
    Distinct(done) && forall x :: x in w ==> x in done
  }

  /**
   Over a walk that does not change between fires, every completed sweep processes every file exactly once,
   wherever its fires are cut off, if and only if the walk is strictly increasing.
  */
  lemma EveryCutSweepExactIff(w: seq<Item>)
    requires Distinct(w)
    ensures (forall fires :: OverOneWalk(fires, w) && Complete(fires) ==> EachOnce(Swept(fires), w)) <==> Increasing(w)
  {
    hide ItemLess, Swept, Complete, Increasing, EachOnce;
    if Increasing(w) {
      forall fires | OverOneWalk(fires, w) && Complete(fires) ensures EachOnce(Swept(fires), w) {
        ExactWhenIncreasing(fires, w);
      }
    }
    if forall fires :: OverOneWalk(fires, w) && Complete(fires) ==> EachOnce(Swept(fires), w) {
      forall i | 0 <= i < |w| ensures IndexAfter(w, Some(w[i])) == i + 1 {
        CutAfter(w, i);
        assert OverOneWalk([Fire(w, i + 1), Fire(w, |w|)], w);
      }
      ResumeIff(w);
    }
  }

  lemma ExactWhenIncreasing(fires: seq<Fire>, w: seq<Item>)
    requires Increasing(w) && OverOneWalk(fires, w) && Complete(fires)
    ensures EachOnce(Swept(fires), w)
  {
    hide ItemLess, Swept;
    SweepsOnce(fires);
    var done := Swept(fires);
    forall i, j | 0 <= i < j < |done| ensures done[i] != done[j] {
      ItemsOrdered(done[i], done[j], done[i]);
    }
    forall x | x in w ensures x in done {
      assert Throughout(fires, x);
    }
  }

  /** A sweep cut after file i and then run to the end is exact only if it resumes at i + 1. */
  lemma CutAfter(w: seq<Item>, i: nat)
    requires Distinct(w) && i < |w|
    ensures var fires := [Fire(w, i + 1), Fire(w, |w|)];
            && Complete(fires) && Swept(fires) == w[..i + 1] + w[IndexAfter(w, Some(w[i]))..]
            && (EachOnce(Swept(fires), w) ==> IndexAfter(w, Some(w[i])) == i + 1)
  {
    hide ItemLess, FirstAfter;
    var (f, g) := (Fire(w, i + 1), Fire(w, |w|));
    var fires := [f, g];
    var k := IndexAfter(w, Some(w[i]));
    assert fires[..1] == [f] && [f][..0] == [];
    assert Swept([]) == [];
    assert Swept([f]) == [] + Slice(f, 0) == w[..i + 1];
    assert LastOf(w[..i + 1]) == Some(w[i]);
    var done := Swept(fires);
    assert Slice(g, k) == w[k..];
    assert done == w[..i + 1] + w[k..];
    ResumeGap(w, i, k);
  }

  /** Resuming too early repeats a file; resuming too late misses one. */
  lemma ResumeGap(w: seq<Item>, i: nat, k: nat)
    requires Distinct(w) && i < |w| && k <= |w|
    ensures k <= i ==> !Distinct(w[..i + 1] + w[k..])
    ensures k > i + 1 ==> w[i + 1] !in w[..i + 1] + w[k..]
  {
    var done := w[..i + 1] + w[k..];
    if k <= i {
      assert done[k] == w[k] && done[i + 1] == w[k];
    }
  }

  /* ---- The families ---- */

  lemma {:induction false} WalkOfShape(sorted: seq<Layout>)
    requires Rising(sorted)
    ensures forall x :: x in WalkOf(sorted) <==> exists a :: 0 <= a < |sorted| && x in LayoutWalk(sorted[a])
    ensures forall i, j ::
        0 <= i < j < |WalkOf(sorted)| ==> !Less(WalkOf(sorted)[j].computer, WalkOf(sorted)[i].computer)
    decreases |sorted|
  {
    hide Less, LayoutWalk;
    StringsOrdered();
    if sorted != [] {
      var (rest, l) := (sorted[..|sorted| - 1], sorted[|sorted| - 1]);
      assert sorted == rest + [l];
      WalkOfShape(rest);
      LayoutWalkOf(l);
      var (a, b) := (WalkOf(rest), LayoutWalk(l));
      var w := a + b;
      forall i, j | 0 <= i < j < |w| ensures !Less(w[j].computer, w[i].computer) {
        if j >= |a| {
          assert b[j - |a|] in b;
          LessIrreflexive(l.computer);
          if i < |a| {
            assert a[i] in a;
            ComputerBefore(rest, a[i]);
          } else {
            assert b[i - |a|] in b;
          }
        }
      }
    }
  }

  lemma ComputerBefore(sorted: seq<Layout>, x: Item)
    requires exists a :: 0 <= a < |sorted| && x in LayoutWalk(sorted[a])
    ensures exists a :: 0 <= a < |sorted| && x.computer == sorted[a].computer
  {
    hide LayoutWalk;
    var a :| 0 <= a < |sorted| && x in LayoutWalk(sorted[a]);
    LayoutWalkOf(sorted[a]);
  }

  predicate ListedIn(l: Layout, x: Item) {
    x.computer == l.computer && x.family in OBJECT_FAMILIES && (x.shard, x.name) in FamilyItems(l, x.family)
  }

  /** The walk holds exactly the listed files. */
  lemma WalkCovers(layouts: seq<Layout>, x: Item)
    requires Listed(layouts)
    ensures x in Walk(layouts) <==> exists l :: l in layouts && FileOf(l, x)
  {
    hide Less, Sort, LayoutWalk, ListedIn, Listed, Rising, FileOf;
    forall l: Layout ensures ListedIn(l, x) <==> FileOf(l, x) { FileListed(l, x); }
    SortedLayouts(layouts);
    WalkOfShape(Sort(ByComputer, layouts));
    var s := Sort(ByComputer, layouts);
    if x in Walk(layouts) {
      var a :| 0 <= a < |s| && x in LayoutWalk(s[a]);
      LayoutCovers(s[a], x);
      assert s[a] in s && s[a] in layouts;
    }
    if exists l :: l in layouts && ListedIn(l, x) {
      var l :| l in layouts && ListedIn(l, x);
      LayoutCovers(l, x);
      assert l in s;
      var a :| 0 <= a < |s| && s[a] == l;
    }
  }

  lemma FileListed(l: Layout, x: Item)
    ensures ListedIn(l, x) <==> FileOf(l, x)
  {
    FamiliesCover(l, x);
  }

  lemma LayoutCovers(l: Layout, x: Item)
    ensures x in LayoutWalk(l) <==> ListedIn(l, x)
  {
    hide FamilyItems, FamilyWalk;
    FamilyCovers(l, BLOBPACKS, x);
    FamilyCovers(l, TREEPACKS, x);
    FamilyCovers(l, LARGEBLOBPACKS, x);
    FamilyCovers(l, STANDARDOBJECTS, x);
  }

  lemma FamilyCovers(l: Layout, kind: string, x: Item)
    ensures x in FamilyWalk(l, kind) <==>
        x.computer == l.computer && x.family == kind && (x.shard, x.name) in FamilyItems(l, kind)
  {
    hide Sort, FamilyItems, PairLess;
    var files := FamilyItems(l, kind);
    var s := Sort(PairLess, files);
    PairsOrdered();
    SortSorts(PairLess, files);
    SameCounts(s, files);
    if x.computer == l.computer && x.family == kind && (x.shard, x.name) in files {
      var i :| 0 <= i < |s| && s[i] == (x.shard, x.name);
      assert FamilyWalk(l, kind)[i] == x;
    }
    if x in FamilyWalk(l, kind) {
      var i :| 0 <= i < |s| && FamilyWalk(l, kind)[i] == x;
      assert s[i] in s;
    }
  }

  /**
   A cursor on a computer's last treepack: the next fire resumes past every other file of that computer,
   so its largeblobpacks and standardobjects, which come later in the walk, are passed over.
  */
  lemma LastTreepackPassesOver(layouts: seq<Layout>, l: Layout, x: Item, p: nat)
    requires Listed(layouts) && l in layouts && x in FamilyWalk(l, TREEPACKS)
    requires forall y :: y in FamilyWalk(l, TREEPACKS) ==> !ItemLess(x, y)
    requires p < |Walk(layouts)| && Walk(layouts)[p].computer == l.computer
    ensures p < IndexAfter(Walk(layouts), Some(x))
  {
    hide Less, Sort, LayoutWalk, FamilyWalk, ItemLess, WalkOf, ListedIn, Rising, FileOf;
    var w := Walk(layouts);
    var s := IndexAfter(w, Some(x));
    SortedLayouts(layouts);
    WalkOfShape(Sort(ByComputer, layouts));
    if s < |w| {
      WalkCovers(layouts, w[s]);
      var m :| m in layouts && FileOf(m, w[s]);
      FileListed(m, w[s]);
      assert w[s] in w && ItemLess(x, w[s]);
      NothingAfter(layouts, l, x, w[s]);
      LessIrreflexive(l.computer);
    }
  }

  lemma NothingAfter(layouts: seq<Layout>, l: Layout, x: Item, y: Item)
    requires Listed(layouts) && l in layouts && x in FamilyWalk(l, TREEPACKS)
    requires forall y :: y in FamilyWalk(l, TREEPACKS) ==> !ItemLess(x, y)
    requires ItemLess(x, y)
    requires exists m :: m in layouts && ListedIn(m, y)
    ensures Less(l.computer, y.computer)
  {
    hide Less, FamilyItems, FamilyWalk;
    FamilyNames();
    StringsOrdered();
    var m :| m in layouts && ListedIn(m, y);
    if y.computer == l.computer {
      assert m == l;
      FamilyCovers(l, y.family, y);
    }
  }

  /** A cursor on a largeblobpack or a standard object: the next fire goes back to the computer's first treepack. */
  lemma LaterFamilyGoesBack(w: seq<Item>, x: Item, i: nat)
    requires x.family == LARGEBLOBPACKS || x.family == STANDARDOBJECTS
    requires i < |w| && w[i].computer == x.computer && w[i].family == TREEPACKS
    ensures IndexAfter(w, Some(x)) <= i
  {
    FamilyNames();
  }
}
