/** diff_snapshots: lining up two snapshots by name, skipping subtrees whose blob ids agree. */
module SnapshotDiff {
  import opened Wrappers
  import opened Ordering

  /** A snapshot read through its locs: a directory's children are its parsed tree, by name. */
  datatype Node =
    | File(ids: seq<string>, size: int, mtime: int)
    | Dir(id: string, path: string, children: map<string, Node>, size: int, mtime: int)

  datatype Kind = Added | Removed | Modified | TypeChanged

  datatype Entry = Entry(kind: Kind, path: string, aSize: Option<int>, bSize: Option<int>, aMtime: Option<int>,
      bMtime: Option<int>)

  function ChildPath(rel: string, name: string): string {
    if rel != "" then rel + "/" + name else name
  }

  function Child(n: Node, name: string): Option<Node>
    requires n.Dir?
  {
    if name in n.children then Some(n.children[name]) else None
  }

  /** What stands at one name on either side; None when it is missing. */
  type Pair = (Option<Node>, Option<Node>)

  /** The entry for a pair that is not descended into. */
  function EntryFor(path: string, p: Pair): Option<Entry> {
    match p
    case (None, None) => None
    case (None, Some(b)) => Some(Entry(Added, path, None, Some(b.size), None, Some(b.mtime)))
    case (Some(a), None) => Some(Entry(Removed, path, Some(a.size), None, Some(a.mtime), None))
    case (Some(a), Some(b)) =>
      var both := Entry(TypeChanged, path, Some(a.size), Some(b.size), Some(a.mtime), Some(b.mtime));
      if a.Dir? != b.Dir? then Some(both)
      else if a.File? && a.ids != b.ids then Some(both.(kind := Modified))
      else None
  }

  /** Both sides are trees that can be fetched. */
  predicate Shared(p: Pair) {
    p.0.Some? && p.1.Some? && p.0.value.Dir? && p.1.value.Dir? && p.0.value.path != "" && p.1.value.path != ""
  }

  /* ---- sorted(set(a) | set(b)) ---- */

  ghost predicate SortedNamesOf(names: seq<string>, s: set<string>) {
    && (forall i, j :: 0 <= i < j < |names| ==> Less(names[i], names[j]))
    && (forall n :: n in names <==> n in s)
  }

  lemma {:induction false} OneSorting(a: seq<string>, b: seq<string>, s: set<string>)
    requires SortedNamesOf(a, s) && SortedNamesOf(b, s)
    ensures a == b
    decreases |a|
  {
    hide Less;
    EmptyTogether(a, s);
    EmptyTogether(b, s);
    if s != {} {
      LastGreatest(a, s);
      LastGreatest(b, s);
      var (x, y) := (a[|a| - 1], b[|b| - 1]);
      LessTotal(x, y);
      StringsOrdered();
      OneSorting(a[..|a| - 1], b[..|b| - 1], s - {x});
    }
  }

  lemma EmptyTogether(a: seq<string>, s: set<string>)
    requires SortedNamesOf(a, s)
    ensures a == [] <==> s == {}
  {
    if a != [] {
      assert a[0] in a;
    }
  }

  lemma LastGreatest(a: seq<string>, s: set<string>)
    requires SortedNamesOf(a, s) && a != []
    ensures var x := a[|a| - 1];
        x in s && (forall n :: n in s && n != x ==> Less(n, x)) && SortedNamesOf(a[..|a| - 1], s - {x})
  {
    hide Less;
    var x := a[|a| - 1];
    assert a == a[..|a| - 1] + [x];
    assert x in a;
    LessIrreflexive(x);
  }

  ghost function SortedNames(s: set<string>): (names: seq<string>)
    ensures SortedNamesOf(names, s)
  {
    SortingExists(s);
    var names :| SortedNamesOf(names, s);
    names
  }

  lemma SortingExists(s: set<string>)
    ensures exists names :: SortedNamesOf(names, s)
  {
    var list := ListOf(s);
    SortedList(list, s);
    assert SortedNamesOf(Sort(Less, list), s);
  }

  ghost function ListOf(s: set<string>): (list: seq<string>)
    ensures Distinct(list) && forall n :: n in list <==> n in s
    decreases |s|
  {
    if s == {} then []
    else
      var x :| x in s;
      [x] + ListOf(s - {x})
  }

  lemma SortedList(list: seq<string>, s: set<string>)
    requires Distinct(list) && forall n :: n in list <==> n in s
    ensures SortedNamesOf(Sort(Less, list), s)
  {
    hide Sort, Less;
    var names := Sort(Less, list);
    StringsOrdered();
    SortSorts(Less, list);
    SameCounts(names, list);
    forall i, j | 0 <= i < j < |names| ensures Less(names[i], names[j]) {
      LessTotal(names[i], names[j]);
    }
  }

  method SortedUnion(a: set<string>, b: set<string>) returns (names: seq<string>)
    ensures names == SortedNames(a + b)
  {
    var left := a + b;
    var list: seq<string> := [];
    while left != {}
      invariant Distinct(list) && left <= a + b && forall n :: n in list <==> n in a + b - left
      decreases |left|
    {
      var x :| x in left;
      assert x !in list;
      list, left := list + [x], left - {x};
    }
    names := Sort(Less, list);
    SortedList(list, a + b);
    OneSorting(names, SortedNames(a + b), a + b);
  }

  /* ---- The diff ---- */

  ghost function AllNames(a: Node, b: Node): seq<string>
    requires a.Dir? && b.Dir?
  {
    SortedNames(a.children.Keys + b.children.Keys)
  }

  /** The entries at one name and below; `pruned` skips pairs of trees with equal ids. */
  ghost function DiffName(a: Node, b: Node, rel: string, pruned: bool, name: string): seq<Entry>
    requires a.Dir? && b.Dir?
    decreases a, 0
  {
    var (path, p) := (ChildPath(rel, name), (Child(a, name), Child(b, name)));
    match EntryFor(path, p)
    case Some(e) => [e]
    case None =>
      if Shared(p) && !(pruned && p.0.value.id == p.1.value.id)
      then DiffNames(p.0.value, p.1.value, path, pruned, AllNames(p.0.value, p.1.value)) else []
  }

  ghost function DiffNames(a: Node, b: Node, rel: string, pruned: bool, names: seq<string>): seq<Entry>
    requires a.Dir? && b.Dir?
    decreases a, 1, |names|
  {
    if names == [] then [] else DiffName(a, b, rel, pruned, names[0]) + DiffNames(a, b, rel, pruned, names[1..])
  }

  ghost function DiffDirs(a: Node, b: Node, rel: string, pruned: bool): seq<Entry>
    requires a.Dir? && b.Dir?
  {
    DiffNames(a, b, rel, pruned, AllNames(a, b))
  }

  function IdsOf(n: Node): seq<string> {
    if n.File? then n.ids else []
  }

  /** The whole comparison, from the records' root nodes. */
  ghost function DiffRoots(a: Node, b: Node, pruned: bool): seq<Entry> {
    if a.File? || b.File? then
      if IdsOf(a) != IdsOf(b) then [Entry(Modified, "", Some(a.size), Some(b.size), None, None)] else []
    else if pruned && a.id == b.id then []
    else DiffDirs(a, b, "", pruned)
  }

  /** How many entries are of a kind. */
  function CountOf(es: seq<Entry>, k: Kind): nat {
    if es == [] then 0 else CountOf(es[..|es| - 1], k) + if es[|es| - 1].kind == k then 1 else 0
  }

  /** SnapshotDiffResult */
  class Result {
    var entries: seq<Entry>
    var counts: map<Kind, nat>

    /** The tallies are those of the entries. */
    ghost predicate Valid()
      reads this
    {
      forall k :: CountOf(entries, k) == if k in counts then counts[k] else 0
    }

    constructor ()
      ensures Valid() && entries == []
    {
      entries, counts := [], map[];
    }

    method Add(e: Entry)
      requires Valid()
      modifies this
      ensures Valid() && entries == old(entries) + [e]
    {
      var was := if e.kind in counts then counts[e.kind] else 0;
      assert (entries + [e])[..|entries|] == entries;
      entries, counts := entries + [e], counts[e.kind := was + 1];
    }

    /** _walk: one level, and the subtrees whose ids differ. */
    method Walk(a: Node, b: Node, rel: string)
      requires a.Dir? && b.Dir? && Valid()
      modifies this
      ensures Valid() && entries == old(entries) + DiffDirs(a, b, rel, true)
      decreases a
    {
      hide SortedNamesOf, EntryFor, Less, DiffNames, DiffName, Valid;
      var names := SortedUnion(a.children.Keys, b.children.Keys);
      var k := 0;
      assert names[0..] == names;
      while k < |names|
        invariant 0 <= k <= |names| && Valid()
        invariant old(entries) + DiffDirs(a, b, rel, true) == entries + DiffNames(a, b, rel, true, names[k..])
      {
        ghost var before := entries;
        var path := ChildPath(rel, names[k]);
        var p := (Child(a, names[k]), Child(b, names[k]));
        var e := EntryFor(path, p);
        if e.Some? {
          Add(e.value);
        } else if Shared(p) && p.0.value.id != p.1.value.id {
          Walk(p.0.value, p.1.value, path);
        }
        OneName(a, b, rel, names, k, before);
        k := k + 1;
      }
      assert names[k..] == [];
      NoNames(a, b, rel, entries);
    }
  }

  lemma OneName(a: Node, b: Node, rel: string, names: seq<string>, k: nat, before: seq<Entry>)
    requires a.Dir? && b.Dir? && k < |names|
    ensures before + DiffNames(a, b, rel, true, names[k..])
         == before + DiffName(a, b, rel, true, names[k]) + DiffNames(a, b, rel, true, names[k + 1..])
    ensures var (path, p) := (ChildPath(rel, names[k]), (Child(a, names[k]), Child(b, names[k])));
            var d := DiffName(a, b, rel, true, names[k]);
            if EntryFor(path, p).Some? then d == [EntryFor(path, p).value]
            else if Shared(p) && p.0.value.id != p.1.value.id then d == DiffDirs(p.0.value, p.1.value, path, true)
            else d == []
  {
    hide EntryFor, Less;
    assert names[k..][1..] == names[k + 1..];
  }

  lemma NoNames(a: Node, b: Node, rel: string, before: seq<Entry>)
    requires a.Dir? && b.Dir?
    ensures before + DiffNames(a, b, rel, true, []) == before
  {}

  /** diff_snapshots, from the two root nodes on. */
  method DiffSnapshots(a: Node, b: Node) returns (r: Result)
    ensures fresh(r) && r.Valid() && r.entries == DiffRoots(a, b, true)
    ensures forall k :: |PlacesOf(r.entries, k)| == if k in r.counts then r.counts[k] else 0
    ensures a.Dir? && b.Dir? && GoodNames(a) && GoodNames(b) ==>
        && DistinctPaths(r.entries) && InNameOrder(r.entries)
        && if a.id == b.id then r.entries == [] else Exact(a, b, true, r.entries)
    ensures a.File? || b.File? ==>
        r.entries == if (if a.File? then a.ids else []) == (if b.File? then b.ids else []) then []
                     else [Entry(Modified, "", Some(a.size), Some(b.size), None, None)]
  {
    hide Exact, GoodNames, DistinctPaths, DiffDirs, PlacesOf, CountOf, InNameOrder;
    r := new Result();
    if a.File? || b.File? {
      if IdsOf(a) != IdsOf(b) {
        r.Add(Entry(Modified, "", Some(a.size), Some(b.size), None, None));
      }
    } else if a.id != b.id {
      r.Walk(a, b, "");
      if GoodNames(a) && GoodNames(b) {
        DiffExact(a, b, true);
      }
    }
    if GoodNames(a) && GoodNames(b) {
      PathsDistinct(a, b, true);
      EntriesOrdered(a, b, true);
    }
    forall k ensures CountOf(r.entries, k) == |PlacesOf(r.entries, k)| { CountsEntries(r.entries, k); }
  }

  /* ---- The short cut is sound ---- */

  /** Content addressing: a tree's id determines its children. */
  ghost predicate Addressed(n: Node, content: map<string, map<string, Node>>) {
    n.Dir? ==>
      && n.id in content && n.children == content[n.id]
      && forall name :: name in n.children ==> Addressed(n.children[name], content)
  }

  /** A tree compared with an equal one has no differences. */
  lemma {:induction false} NothingDiffers(a: Node, b: Node, rel: string, names: seq<string>)
    requires a.Dir? && b.Dir? && a.children == b.children
    ensures DiffNames(a, b, rel, false, names) == []
    decreases a, |names|
  {
    hide Less;
    if names != [] {
      var (path, p) := (ChildPath(rel, names[0]), (Child(a, names[0]), Child(b, names[0])));
      if Shared(p) {
        NothingDiffers(p.0.value, p.1.value, path, AllNames(p.0.value, p.1.value));
      }
      NothingDiffers(a, b, rel, names[1..]);
    }
  }

  lemma {:induction false} PrunedNames(a: Node, b: Node, rel: string, names: seq<string>,
      content: map<string, map<string, Node>>)
    requires a.Dir? && b.Dir? && Addressed(a, content) && Addressed(b, content)
    ensures DiffNames(a, b, rel, true, names) == DiffNames(a, b, rel, false, names)
    decreases a, |names|
  {
    hide EntryFor, Less;
    if names != [] {
      var (path, p) := (ChildPath(rel, names[0]), (Child(a, names[0]), Child(b, names[0])));
      if Shared(p) {
        var (x, y) := (p.0.value, p.1.value);
        PrunedNames(x, y, path, AllNames(x, y), content);
        if x.id == y.id {
          NothingDiffers(x, y, path, AllNames(x, y));
        }
      }
      PrunedNames(a, b, rel, names[1..], content);
    }
  }

  /** Main result: where tree ids determine trees, the diff that skips equal ids is the full diff, entry for entry. */
  lemma PrunedEqualsFull(a: Node, b: Node, content: map<string, map<string, Node>>)
    requires Addressed(a, content) && Addressed(b, content)
    ensures DiffRoots(a, b, true) == DiffRoots(a, b, false)
  {
    hide Less, DiffNames, EntryFor;
    if a.Dir? && b.Dir? {
      PrunedNames(a, b, "", AllNames(a, b), content);
      if a.id == b.id {
        NothingDiffers(a, b, "", AllNames(a, b));
      }
    }
  }

  /* ---- Swapping the snapshots ---- */

  function MirrorKind(k: Kind): Kind {
    match k
    case Added => Removed
    case Removed => Added
    case _ => k
  }

  function Mirror(e: Entry): Entry {
    Entry(MirrorKind(e.kind), e.path, e.bSize, e.aSize, e.bMtime, e.aMtime)
  }

  function MirrorAll(es: seq<Entry>): (ms: seq<Entry>)
    ensures |ms| == |es| && forall i :: 0 <= i < |es| ==> ms[i] == Mirror(es[i])
  {
    seq(|es|, i requires 0 <= i < |es| => Mirror(es[i]))
  }

  lemma EntryMirrored(path: string, p: Pair)
    ensures var (e, m) := (EntryFor(path, p), EntryFor(path, (p.1, p.0)));
            if e.None? then m.None? else m == Some(Mirror(e.value)) && MirrorAll([e.value]) == [m.value]
  {}

  lemma {:induction false} NamesMirrored(a: Node, b: Node, rel: string, pruned: bool, names: seq<string>)
    requires a.Dir? && b.Dir?
    ensures DiffNames(b, a, rel, pruned, names) == MirrorAll(DiffNames(a, b, rel, pruned, names))
    decreases a, |names|
  {
    hide EntryFor, Mirror, Less;
    if names != [] {
      var (path, p) := (ChildPath(rel, names[0]), (Child(a, names[0]), Child(b, names[0])));
      EntryMirrored(path, p);
      if Shared(p) {
        var (x, y) := (p.0.value, p.1.value);
        assert x.children.Keys + y.children.Keys == y.children.Keys + x.children.Keys;
        NamesMirrored(x, y, path, pruned, AllNames(x, y));
      }
      NamesMirrored(a, b, rel, pruned, names[1..]);
    }
  }

  /** Swapping the snapshots swaps added with removed and the two sides' fields, entry for entry. */
  lemma SwapMirrors(a: Node, b: Node, pruned: bool)
    ensures DiffRoots(b, a, pruned) == MirrorAll(DiffRoots(a, b, pruned))
  {
    hide Less, DiffNames, DiffName;
    if a.Dir? && b.Dir? {
      assert a.children.Keys + b.children.Keys == b.children.Keys + a.children.Keys;
      NamesMirrored(a, b, "", pruned, AllNames(a, b));
    }
  }

  /* ---- What is reported, path by path ---- */

  /** What stands at a path on either side, if it can be reached: every directory above it is a tree on both sides. */
  ghost function At(a: Node, b: Node, pruned: bool, p: seq<string>): Option<Pair>
    requires a.Dir? && b.Dir? && p != []
    decreases |p|
  {
    var pair := (Child(a, p[0]), Child(b, p[0]));
    if |p| == 1 then Some(pair)
    else if Entered(pair, pruned) then At(pair.0.value, pair.1.value, pruned, p[1..]) else None
  }

  /** The comparison goes on below the pair. */
  predicate Entered(p: Pair, pruned: bool) {
    Shared(p) && !(pruned && p.0.value.id == p.1.value.id)
  }

  function Render(rel: string, p: seq<string>): string
    requires p != []
    decreases |p|
  {
    if |p| == 1 then ChildPath(rel, p[0]) else Render(ChildPath(rel, p[0]), p[1..])
  }

  ghost predicate ReportedAt(a: Node, b: Node, rel: string, pruned: bool, p: seq<string>, e: Entry)
    requires a.Dir? && b.Dir?
  {
    p != [] && At(a, b, pruned, p).Some? && EntryFor(Render(rel, p), At(a, b, pruned, p).value) == Some(e)
  }

  lemma DeeperAt(a: Node, b: Node, rel: string, pruned: bool, name: string, p: seq<string>, e: Entry)
    requires a.Dir? && b.Dir? && p != []
    requires var pair := (Child(a, name), Child(b, name)); Entered(pair, pruned)
    ensures ReportedAt(a.children[name], b.children[name], ChildPath(rel, name), pruned, p, e)
        <==> ReportedAt(a, b, rel, pruned, [name] + p, e)
  {
    hide EntryFor;
    assert ([name] + p)[1..] == p;
  }

  /** An entry listed for a name is the name's own or comes from the directories below it. */
  lemma NameSplit(a: Node, b: Node, rel: string, pruned: bool, name: string, e: Entry)
    requires a.Dir? && b.Dir?
    ensures var (path, pair) := (ChildPath(rel, name), (Child(a, name), Child(b, name)));
            e in DiffName(a, b, rel, pruned, name) <==>
              ReportedAt(a, b, rel, pruned, [name], e)
                  || (Entered(pair, pruned) && e in DiffDirs(pair.0.value, pair.1.value, path, pruned))
  {
    hide Less, ChildPath;
  }

  /** Only names of one of the two directories are reported at. */
  lemma NameKnown(a: Node, b: Node, rel: string, pruned: bool, p: seq<string>, e: Entry)
    requires a.Dir? && b.Dir? && ReportedAt(a, b, rel, pruned, p, e)
    ensures p[0] in AllNames(a, b)
  {
    hide Less, Render;
  }

  lemma {:induction false} NameMeaning(a: Node, b: Node, rel: string, pruned: bool, name: string, e: Entry)
    requires a.Dir? && b.Dir?
    ensures e in DiffName(a, b, rel, pruned, name)
        <==> exists p :: p != [] && p[0] == name && ReportedAt(a, b, rel, pruned, p, e)
    decreases a, 0, 0
  {
    hide Less, Render, ChildPath, DiffNames, DiffName, EntryFor, ReportedAt, AllNames;
    var (path, pair) := (ChildPath(rel, name), (Child(a, name), Child(b, name)));
    NameSplit(a, b, rel, pruned, name, e);
    if Entered(pair, pruned) {
      NamesMeaning(pair.0.value, pair.1.value, path, pruned, AllNames(pair.0.value, pair.1.value), e);
    }
    if e in DiffName(a, b, rel, pruned, name) && !ReportedAt(a, b, rel, pruned, [name], e) {
      var q :| q != [] && ReportedAt(pair.0.value, pair.1.value, path, pruned, q, e);
      DeeperAt(a, b, rel, pruned, name, q, e);
      assert ([name] + q)[0] == name;
    }
    if exists p :: p != [] && p[0] == name && ReportedAt(a, b, rel, pruned, p, e) {
      var p :| p != [] && p[0] == name && ReportedAt(a, b, rel, pruned, p, e);
      PathBelow(a, b, rel, pruned, p, e);
    }
  }

  /** A report at a path is a report at its first name, or one further down. */
  lemma PathBelow(a: Node, b: Node, rel: string, pruned: bool, p: seq<string>, e: Entry)
    requires a.Dir? && b.Dir? && p != [] && ReportedAt(a, b, rel, pruned, p, e)
    ensures var pair := (Child(a, p[0]), Child(b, p[0]));
            || ReportedAt(a, b, rel, pruned, [p[0]], e)
            || (Entered(pair, pruned) && p[1..] != [] && p[1..][0] in AllNames(pair.0.value, pair.1.value)
                && ReportedAt(pair.0.value, pair.1.value, ChildPath(rel, p[0]), pruned, p[1..], e))
  {
    hide Less, ChildPath, EntryFor, AllNames;
    if |p| == 1 {
      assert p == [p[0]];
    } else {
      assert p == [p[0]] + p[1..];
      DeeperAt(a, b, rel, pruned, p[0], p[1..], e);
      NameKnown(a.children[p[0]], b.children[p[0]], ChildPath(rel, p[0]), pruned, p[1..], e);
    }
  }

  lemma {:induction false} NamesMeaning(a: Node, b: Node, rel: string, pruned: bool, names: seq<string>, e: Entry)
    requires a.Dir? && b.Dir?
    ensures e in DiffNames(a, b, rel, pruned, names)
        <==> exists p :: p != [] && p[0] in names && ReportedAt(a, b, rel, pruned, p, e)
    decreases a, 1, |names|
  {
    hide Less, Render, ChildPath, DiffName, EntryFor, ReportedAt;
    if names != [] {
      NameMeaning(a, b, rel, pruned, names[0], e);
      NamesMeaning(a, b, rel, pruned, names[1..], e);
      assert forall n :: n in names <==> n == names[0] || n in names[1..];
    }
  }

  /**
   The diff of two directories lists exactly the entries of the paths that can be reached on both sides and differ.
  */
  lemma DiffMeaning(a: Node, b: Node, rel: string, pruned: bool, e: Entry)
    requires a.Dir? && b.Dir?
    ensures e in DiffDirs(a, b, rel, pruned) <==> exists p :: ReportedAt(a, b, rel, pruned, p, e)
  {
    hide Less, Render, ChildPath, DiffNames, EntryFor, AllNames;
    NamesMeaning(a, b, rel, pruned, AllNames(a, b), e);
    if exists p :: ReportedAt(a, b, rel, pruned, p, e) {
      var p :| ReportedAt(a, b, rel, pruned, p, e);
      NameKnown(a, b, rel, pruned, p, e);
    }
  }

  /* ---- Paths are distinct ---- */

  predicate GoodName(n: string) { n != "" && '/' !in n }

  /** Names a directory can hold, all the way down. */
  ghost predicate GoodNames(n: Node) {
    n.Dir? ==> forall name :: name in n.children ==> GoodName(name) && GoodNames(n.children[name])
  }

  /** The path itself, or one below it. */
  predicate Under(top: string, path: string) {
    path == top || top + "/" <= path
  }

  lemma NamesApart(rel: string, m: string, n: string, path: string)
    requires GoodName(m) && GoodName(n) && Under(ChildPath(rel, m), path) && Under(ChildPath(rel, n), path)
    ensures m == n
  {
    var k := if rel == "" then 0 else |rel| + 1;
    Segment(rel, m, path, k);
    Segment(rel, n, path, k);
    LongerHoldsSlash(m, n, path, k);
    LongerHoldsSlash(n, m, path, k);
    assert |m| == |n|;
    assert m == path[k..k + |m|] == n;
  }

  lemma LongerHoldsSlash(m: string, n: string, path: string, k: nat)
    requires k + |n| <= |path| && forall i :: 0 <= i < |n| ==> path[k + i] == n[i]
    requires k + |m| < |path| ==> path[k + |m|] == '/'
    ensures |m| < |n| ==> '/' in n
  {
    if |m| < |n| {
      assert n[|m|] == path[k + |m|];
    }
  }

  /** From position k on, the path reads the name and then ends or has a slash. */
  lemma Segment(rel: string, name: string, path: string, k: nat)
    requires Under(ChildPath(rel, name), path) && k == if rel == "" then 0 else |rel| + 1
    ensures k + |name| <= |path| && path[k..k + |name|] == name
    ensures forall i :: 0 <= i < |name| ==> path[k + i] == name[i]
    ensures k + |name| < |path| ==> path[k + |name|] == '/'
  {
    var top := ChildPath(rel, name);
    assert |top| == k + |name| && top[k..] == name;
    if path != top {
      assert path[..|top| + 1] == top + "/";
      assert path[|top|] == (top + "/")[|top|];
      assert path[..|top|] == top;
    }
    assert path[..|top|] == top;
    forall i | 0 <= i < |name| ensures path[k + i] == name[i] {
      assert path[..|top|][k + i] == top[k..][i];
    }
  }

  ghost predicate DistinctPaths(es: seq<Entry>) {
    forall i, j :: 0 <= i < j < |es| ==> es[i].path != es[j].path
  }

  lemma {:induction false} NameEntries(a: Node, b: Node, rel: string, pruned: bool, name: string)
    requires a.Dir? && b.Dir? && GoodNames(a) && GoodNames(b) && GoodName(name)
    ensures DistinctPaths(DiffName(a, b, rel, pruned, name))
    ensures forall e :: e in DiffName(a, b, rel, pruned, name) ==> Under(ChildPath(rel, name), e.path)
    decreases a, 0, 0
  {
    hide Less, DiffNames, AllNames, GoodName, Under;
    var (path, p) := (ChildPath(rel, name), (Child(a, name), Child(b, name)));
    Itself(path);
    if Shared(p) {
      var (x, y) := (p.0.value, p.1.value);
      GoodAll(x, y);
      NamesEntries(x, y, path, pruned, AllNames(x, y));
      forall e | e in DiffNames(x, y, path, pruned, AllNames(x, y)) ensures Under(path, e.path) {
        var n :| n in AllNames(x, y) && Under(ChildPath(path, n), e.path);
        FurtherUnder(rel, name, n, e.path);
      }
    }
  }

  lemma Itself(path: string)
    ensures Under(path, path)
  {}

  lemma GoodAll(x: Node, y: Node)
    requires x.Dir? && y.Dir? && GoodNames(x) && GoodNames(y)
    ensures Distinct(AllNames(x, y)) && forall n :: n in AllNames(x, y) ==> GoodName(n)
  {
    hide Less, GoodName;
    var names := AllNames(x, y);
    forall i, j | 0 <= i < j < |names| ensures names[i] != names[j] {
      LessIrreflexive(names[i]);
    }
  }

  lemma FurtherUnder(rel: string, name: string, n: string, path: string)
    requires GoodName(name) && Under(ChildPath(ChildPath(rel, name), n), path)
    ensures Under(ChildPath(rel, name), path)
  {
    var top := ChildPath(rel, name);
    var deeper := ChildPath(top, n);
    assert top != "" && deeper == top + "/" + n;
    if path == deeper {
      assert top + "/" <= path;
    } else {
      assert path[..|deeper| + 1] == deeper + "/";
      assert path[..|top| + 1] == (deeper + "/")[..|top| + 1] == top + "/";
    }
  }

  lemma {:induction false} NamesEntries(a: Node, b: Node, rel: string, pruned: bool, names: seq<string>)
    requires a.Dir? && b.Dir? && GoodNames(a) && GoodNames(b) && Distinct(names) && forall n ::
        n in names ==> GoodName(n)
    ensures DistinctPaths(DiffNames(a, b, rel, pruned, names))
    ensures forall e ::
        e in DiffNames(a, b, rel, pruned, names) ==> exists n :: n in names && Under(ChildPath(rel, n), e.path)
    decreases a, 1, |names|
  {
    hide Less, DiffName, GoodName, Under, ChildPath, GoodNames;
    if names != [] {
      var (n, rest) := (names[0], names[1..]);
      assert names == [n] + rest;
      NameEntries(a, b, rel, pruned, n);
      NamesEntries(a, b, rel, pruned, rest);
      var (es, fs) := (DiffName(a, b, rel, pruned, n), DiffNames(a, b, rel, pruned, rest));
      forall e, f | e in es && f in fs ensures e.path != f.path {
        var m :| m in rest && Under(ChildPath(rel, m), f.path);
        if e.path == f.path {
          NamesApart(rel, n, m, e.path);
        }
      }
      JoinDistinct(es, fs);
    }
  }

  lemma JoinDistinct(es: seq<Entry>, fs: seq<Entry>)
    requires DistinctPaths(es) && DistinctPaths(fs) && forall e, f :: e in es && f in fs ==> e.path != f.path
    ensures DistinctPaths(es + fs)
  {}

  /** No path is reported twice, where names are what file systems allow. */
  lemma PathsDistinct(a: Node, b: Node, pruned: bool)
    requires GoodNames(a) && GoodNames(b)
    ensures DistinctPaths(DiffRoots(a, b, pruned))
  {
    hide Less, DiffNames, AllNames, GoodName, GoodNames;
    if a.Dir? && b.Dir? {
      GoodAll(a, b);
      NamesEntries(a, b, "", pruned, AllNames(a, b));
    }
  }

  /* ---- Entries come in name order ---- */

  /** In the directory where the two paths part, x goes on under a lesser name than y. */
  ghost predicate Follows(x: string, y: string) {
    exists rel, m, n :: Parts(rel, m, n, x, y)
  }

  ghost predicate Parts(rel: string, m: string, n: string, x: string, y: string) {
    && GoodName(m) && GoodName(n) && Less(m, n)
    && Under(if rel == "" then m else rel + "/" + m, x) && Under(if rel == "" then n else rel + "/" + n, y)
  }

  ghost predicate InNameOrder(es: seq<Entry>) {
    forall i, j :: 0 <= i < j < |es| ==> Follows(es[i].path, es[j].path)
  }

  ghost predicate Ascending(names: seq<string>) {
    forall i, j :: 0 <= i < j < |names| ==> Less(names[i], names[j])
  }

  lemma {:induction false} NameOrdered(a: Node, b: Node, rel: string, pruned: bool, name: string)
    requires a.Dir? && b.Dir? && GoodNames(a) && GoodNames(b) && GoodName(name)
    ensures InNameOrder(DiffName(a, b, rel, pruned, name))
    decreases a, 0, 0
  {
    hide Less, DiffNames, AllNames, GoodName, Under, Follows;
    var (path, p) := (ChildPath(rel, name), (Child(a, name), Child(b, name)));
    if Shared(p) {
      var (x, y) := (p.0.value, p.1.value);
      GoodAll(x, y);
      SortedAscend(x, y);
      NamesOrdered(x, y, path, pruned, AllNames(x, y));
    }
  }

  lemma SortedAscend(x: Node, y: Node)
    requires x.Dir? && y.Dir?
    ensures Ascending(AllNames(x, y))
  {
    hide Less;
  }

  lemma {:induction false} NamesOrdered(a: Node, b: Node, rel: string, pruned: bool, names: seq<string>)
    requires a.Dir? && b.Dir? && GoodNames(a) && GoodNames(b) && Distinct(names) && Ascending(names)
    requires forall n :: n in names ==> GoodName(n)
    ensures InNameOrder(DiffNames(a, b, rel, pruned, names))
    decreases a, 1, |names|
  {
    hide Less, DiffName, GoodName, Under, GoodNames, Follows;
    if names != [] {
      var (n, rest) := (names[0], names[1..]);
      assert names == [n] + rest;
      var (es, fs) := (DiffName(a, b, rel, pruned, n), DiffNames(a, b, rel, pruned, rest));
      NameEntries(a, b, rel, pruned, n);
      NameOrdered(a, b, rel, pruned, n);
      NamesEntries(a, b, rel, pruned, rest);
      NamesOrdered(a, b, rel, pruned, rest);
      forall e, f | e in es && f in fs ensures Follows(e.path, f.path) {
        var m :| m in rest && Under(ChildPath(rel, m), f.path);
        var k :| 0 <= k < |rest| && rest[k] == m;
        assert Less(names[0], names[k + 1]);
        Parting(rel, n, m, e.path, f.path);
      }
      JoinOrdered(es, fs);
    }
  }

  lemma Parting(rel: string, m: string, n: string, x: string, y: string)
    requires GoodName(m) && GoodName(n) && Less(m, n)
    requires Under(ChildPath(rel, m), x) && Under(ChildPath(rel, n), y)
    ensures Follows(x, y)
  {
    hide Less, Under, GoodName;
    assert Parts(rel, m, n, x, y);
  }

  lemma JoinOrdered(es: seq<Entry>, fs: seq<Entry>)
    requires InNameOrder(es) && InNameOrder(fs) && forall e, f :: e in es && f in fs ==> Follows(e.path, f.path)
    ensures InNameOrder(es + fs)
  {
    hide Follows;
  }

  /** The entries of a comparison come in the order of names, directory by directory. */
  lemma EntriesOrdered(a: Node, b: Node, pruned: bool)
    requires GoodNames(a) && GoodNames(b)
    ensures InNameOrder(DiffRoots(a, b, pruned))
  {
    hide Less, DiffNames, AllNames, GoodName, GoodNames, Follows;
    if a.Dir? && b.Dir? {
      GoodAll(a, b);
      SortedAscend(a, b);
      NamesOrdered(a, b, "", pruned, AllNames(a, b));
    }
  }

  /* ---- The entries, from the two snapshots alone ---- */

  /** What stands at a path inside a directory. */
  ghost function Find(n: Node, p: seq<string>): Option<Node>
    decreases |p|
  {
    if p == [] then Some(n)
    else if n.Dir? && p[0] in n.children then Find(n.children[p[0]], p[1..])
    else None
  }

  /** Both are directories whose trees can be fetched; `pruned`, with different ids. */
  ghost predicate BothTrees(x: Option<Node>, y: Option<Node>, pruned: bool) {
    && x.Some? && y.Some? && x.value.Dir? && y.value.Dir? && x.value.path != "" && y.value.path != ""
    && (pruned ==> x.value.id != y.value.id)
  }

  /** Every directory between the root and the path is one on both sides. */
  ghost predicate Compared(a: Node, b: Node, pruned: bool, p: seq<string>) {
    forall k :: 0 < k < |p| ==> BothTrees(Find(a, p[..k]), Find(b, p[..k]), pruned)
  }

  ghost predicate Differ(x: Option<Node>, y: Option<Node>) {
    if x.None? || y.None? then x != y
    else x.value.Dir? != y.value.Dir? || (x.value.File? && x.value.ids != y.value.ids)
  }

  function Join(p: seq<string>): string
    requires p != []
    decreases |p|
  {
    if |p| == 1 then p[0] else p[0] + "/" + Join(p[1..])
  }

  /** The entry says, of what stands at the path in the first and in the second snapshot, what became of it. */
  ghost predicate Tells(e: Entry, path: string, x: Option<Node>, y: Option<Node>) {
    && e.path == path
    && (e.kind == Added <==> x.None? && y.Some?)
    && (e.kind == Removed <==> x.Some? && y.None?)
    && (e.kind == TypeChanged <==> x.Some? && y.Some? && x.value.Dir? != y.value.Dir?)
    && (e.kind == Modified <==>
          x.Some? && y.Some? && x.value.File? && y.value.File? && x.value.ids != y.value.ids)
    && e.aSize == (if x.Some? then Some(x.value.size) else None)
    && e.aMtime == (if x.Some? then Some(x.value.mtime) else None)
    && e.bSize == (if y.Some? then Some(y.value.size) else None)
    && e.bMtime == (if y.Some? then Some(y.value.mtime) else None)
  }

  ghost predicate TellsOf(a: Node, b: Node, pruned: bool, p: seq<string>, e: Entry) {
    && p != [] && Compared(a, b, pruned, p) && Differ(Find(a, p), Find(b, p))
    && Tells(e, Join(p), Find(a, p), Find(b, p))
  }

  /** The entries are those of the paths that can be compared and where the snapshots differ, and no others. */
  ghost predicate Exact(a: Node, b: Node, pruned: bool, es: seq<Entry>) {
    forall e :: e in es <==> exists p :: TellsOf(a, b, pruned, p, e)
  }

  lemma EntryTells(path: string, x: Option<Node>, y: Option<Node>, e: Entry)
    ensures EntryFor(path, (x, y)) == Some(e) <==> Differ(x, y) && Tells(e, path, x, y)
  {}

  lemma FindDeeper(n: Node, name: string, p: seq<string>)
    ensures Find(n, [name] + p) == if n.Dir? && name in n.children then Find(n.children[name], p) else None
  {
    assert ([name] + p)[1..] == p;
  }

  lemma ComparedDeeper(a: Node, b: Node, pruned: bool, name: string, p: seq<string>)
    requires a.Dir? && b.Dir? && p != []
    ensures var (x, y) := (Find(a, [name]), Find(b, [name]));
            Compared(a, b, pruned, [name] + p)
            <==> BothTrees(x, y, pruned) && Compared(x.value, y.value, pruned, p)
  {
    hide BothTrees, Find;
    var q := [name] + p;
    FindDeeper(a, name, []);
    FindDeeper(b, name, []);
    assert [name] + [] == [name] && q[..1] == [name];
    forall k | 0 < k < |p|
      ensures Find(a, q[..k + 1]) == (if a.Dir? && name in a.children then Find(a.children[name], p[..k]) else None)
      ensures Find(b, q[..k + 1]) == (if b.Dir? && name in b.children then Find(b.children[name], p[..k]) else None)
    {
      assert q[..k + 1] == [name] + p[..k];
      FindDeeper(a, name, p[..k]);
      FindDeeper(b, name, p[..k]);
    }
    NameFound(a, name);
    NameFound(b, name);
    if Compared(a, b, pruned, q) {
      assert BothTrees(Find(a, q[..1]), Find(b, q[..1]), pruned);
      BothThere(Find(a, [name]), Find(b, [name]), pruned);
      forall k | 0 < k < |p|
        ensures BothTrees(Find(a.children[name], p[..k]), Find(b.children[name], p[..k]), pruned)
      {
        assert BothTrees(Find(a, q[..k + 1]), Find(b, q[..k + 1]), pruned);
      }
    }
    if BothTrees(Find(a, [name]), Find(b, [name]), pruned) {
      BothThere(Find(a, [name]), Find(b, [name]), pruned);
      if Compared(a.children[name], b.children[name], pruned, p) {
        forall k | 0 < k < |q| ensures BothTrees(Find(a, q[..k]), Find(b, q[..k]), pruned) {
          if k > 1 {
            assert BothTrees(Find(a.children[name], p[..k - 1]), Find(b.children[name], p[..k - 1]), pruned);
          }
        }
      }
    }
  }

  lemma BothThere(x: Option<Node>, y: Option<Node>, pruned: bool)
    requires BothTrees(x, y, pruned)
    ensures x.Some? && y.Some?
  {}

  lemma NameFound(n: Node, name: string)
    requires n.Dir?
    ensures Find(n, [name]) == Child(n, name)
  {
    FindDeeper(n, name, []);
    assert [name] + [] == [name];
  }

  /** What the walk sees at a path is what stands there. */
  lemma {:induction false} AtFinds(a: Node, b: Node, pruned: bool, p: seq<string>)
    requires a.Dir? && b.Dir? && p != []
    ensures At(a, b, pruned, p) == if Compared(a, b, pruned, p) then Some((Find(a, p), Find(b, p))) else None
    decreases |p|
  {
    hide Find, Compared;
    var (name, rest) := (p[0], p[1..]);
    NameFound(a, name);
    NameFound(b, name);
    if |p| == 1 {
      assert p == [name];
      NothingBetween(a, b, pruned, p);
    } else {
      assert p == [name] + rest;
      ComparedDeeper(a, b, pruned, name, rest);
      FindDeeper(a, name, rest);
      FindDeeper(b, name, rest);
      if Entered((Child(a, name), Child(b, name)), pruned) {
        AtFinds(a.children[name], b.children[name], pruned, rest);
      }
    }
  }

  lemma NothingBetween(a: Node, b: Node, pruned: bool, p: seq<string>)
    requires |p| == 1
    ensures Compared(a, b, pruned, p)
  {}

  lemma {:induction false} RenderJoins(rel: string, p: seq<string>)
    requires p != [] && forall i :: 0 <= i < |p| ==> p[i] != ""
    ensures Render(rel, p) == if rel == "" then Join(p) else rel + "/" + Join(p)
    decreases |p|
  {
    if |p| > 1 {
      RenderJoins(ChildPath(rel, p[0]), p[1..]);
      if rel != "" {
        assert (rel + "/" + p[0]) + "/" + Join(p[1..]) == rel + "/" + (p[0] + "/" + Join(p[1..]));
      }
    }
  }

  /** Names on the way to something that stands are names of directories' children. */
  lemma {:induction false} FoundNames(n: Node, p: seq<string>)
    requires GoodNames(n) && Find(n, p).Some?
    ensures forall i :: 0 <= i < |p| ==> p[i] != ""
    decreases |p|
  {
    if p != [] {
      FoundNames(n.children[p[0]], p[1..]);
      assert p == [p[0]] + p[1..];
    }
  }

  /** Main result on the entries: each says what became of its path, and no path is left out or added. */
  lemma DiffExact(a: Node, b: Node, pruned: bool)
    requires a.Dir? && b.Dir? && GoodNames(a) && GoodNames(b)
    ensures Exact(a, b, pruned, DiffDirs(a, b, "", pruned))
  {
    hide DiffDirs, Compared, Find, GoodNames, EntryFor, Tells, Differ, Render, Join;
    forall e ensures e in DiffDirs(a, b, "", pruned) <==> exists p :: TellsOf(a, b, pruned, p, e) {
      DiffMeaning(a, b, "", pruned, e);
      forall p ensures ReportedAt(a, b, "", pruned, p, e) <==> TellsOf(a, b, pruned, p, e) {
        ReportTells(a, b, pruned, p, e);
      }
    }
  }

  lemma ReportTells(a: Node, b: Node, pruned: bool, p: seq<string>, e: Entry)
    requires a.Dir? && b.Dir? && GoodNames(a) && GoodNames(b)
    ensures ReportedAt(a, b, "", pruned, p, e) <==> TellsOf(a, b, pruned, p, e)
  {
    hide Compared, Find, GoodNames, EntryFor, Tells, Differ, Render, Join, At;
    if p != [] {
      AtFinds(a, b, pruned, p);
      var (x, y) := (Find(a, p), Find(b, p));
      EntryTells(Render("", p), x, y, e);
      EntryTells(Join(p), x, y, e);
      if x.Some? {
        FoundNames(a, p);
        RenderJoins("", p);
      } else if y.Some? {
        FoundNames(b, p);
        RenderJoins("", p);
      } else {
        SameMissing(x, y);
      }
    }
  }

  lemma SameMissing(x: Option<Node>, y: Option<Node>)
    requires x.None? && y.None?
    ensures !Differ(x, y)
  {}

  /** Where trees are content-addressed, the short cut loses nothing: the entries are those of all paths. */
  lemma FullExact(a: Node, b: Node, content: map<string, map<string, Node>>)
    requires Addressed(a, content) && Addressed(b, content) && a.Dir? && b.Dir? && GoodNames(a) && GoodNames(b)
    ensures Exact(a, b, false, DiffRoots(a, b, true))
  {
    hide Exact, GoodNames, Addressed, DiffDirs;
    PrunedEqualsFull(a, b, content);
    DiffExact(a, b, false);
  }

  /** The places of the entries of a kind. */
  ghost function PlacesOf(es: seq<Entry>, k: Kind): set<nat> { set i: nat | i < |es| && es[i].kind == k }

  /** The tally of a kind is the number of its entries. */
  lemma {:induction false} CountsEntries(es: seq<Entry>, k: Kind)
    ensures CountOf(es, k) == |PlacesOf(es, k)|
    decreases |es|
  {
    if es != [] {
      var n := |es| - 1;
      CountsEntries(es[..n], k);
      LastPlace(es, k);
    } else {
      assert PlacesOf(es, k) == {};
    }
  }

  lemma LastPlace(es: seq<Entry>, k: Kind)
    requires es != []
    ensures var n := |es| - 1;
            |PlacesOf(es, k)| == |PlacesOf(es[..n], k)| + if es[n].kind == k then 1 else 0
  {
    var n := |es| - 1;
    forall i: nat ensures i in PlacesOf(es, k) <==> i in PlacesOf(es[..n], k) || (i == n && es[n].kind == k) {
      assert i < n ==> es[..n][i] == es[i];
    }
    assert n !in PlacesOf(es[..n], k);
    OneMorePlace(PlacesOf(es, k), PlacesOf(es[..n], k), n, es[n].kind == k);
  }

  lemma OneMorePlace(all: set<nat>, before: set<nat>, n: nat, more: bool)
    requires n !in before && forall i: nat :: i in all <==> i in before || (i == n && more)
    ensures |all| == |before| + if more then 1 else 0
  {
    assert all == if more then before + {n} else before;
  }
}
