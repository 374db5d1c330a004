/** measure_dedup_ratio: collecting the blobs a snapshot reaches, and comparing two such collections. */
module DedupWalk {
  import opened Wrappers
  import opened Bytes
  import opened TreeFormat
  import opened BlobGraph

  /** _add_loc: the first length seen for an id is kept, and an empty id is not recorded. */
  function AddLoc(out: map<bytes, int>, l: BlobLoc): map<bytes, int> {
    if l.blobIdentifier != [] && l.blobIdentifier !in out then out[l.blobIdentifier := l.length] else out
  }

  function AddLocs(out: map<bytes, int>, locs: seq<BlobLoc>): map<bytes, int> {
    if locs == [] then out else AddLoc(AddLocs(out, locs[..|locs| - 1]), locs[|locs| - 1])
  }

  method AddAll(before: map<bytes, int>, locs: seq<BlobLoc>) returns (out: map<bytes, int>)
    ensures out == AddLocs(before, locs)
  {
    out := before;
    for i := 0 to |locs|
      invariant out == AddLocs(before, locs[..i])
    {
      assert locs[..i + 1][..i] == locs[..i];
      out := AddLoc(out, locs[i]);
    }
    assert locs[..|locs|] == locs;
  }

  lemma {:induction false} AddLocsKeys(out: map<bytes, int>, locs: seq<BlobLoc>)
    ensures forall i ::
        i in AddLocs(out, locs) <==> i in out || (i != [] && exists l :: l in locs && l.blobIdentifier == i)
    ensures forall i :: i in out ==> AddLocs(out, locs)[i] == out[i]
    decreases |locs|
  {
    if locs != [] {
      var (rest, last) := (locs[..|locs| - 1], locs[|locs| - 1]);
      assert locs == rest + [last];
      AddLocsKeys(out, rest);
    }
  }

  ghost predicate HasLeaf(n: WalkNode, i: bytes) {
    exists l :: l in LeafLocs(n) && l.blobIdentifier == i
  }

  /** The loc is the tree loc of a node the snapshot reaches. */
  ghost predicate TreeReached(w: World, root: WalkNode, l: BlobLoc) {
    exists n :: Reachable(w, root, n) && n.isTree && n.treeLoc == Some(l)
  }

  /** The blob id is that of a tree the snapshot reaches, or of a data, xattr or ACL blob of a node it reaches. */
  ghost predicate Mentions(w: World, root: WalkNode, i: bytes) {
    i != [] && ((exists n :: Reachable(w, root, n) && HasLeaf(n, i))
        || exists l :: TreeReached(w, root, l) && l.blobIdentifier == i)
  }

  /**
   The same of the parsed trees alone: the id is that of a blob the root refers to, of a tree of the record, or of a
   blob that a child of such a tree refers to.
  */
  ghost predicate Named(w: World, root: WalkNode, i: bytes) {
    RootNames(root, i) || TreeNames(w, root, i) || ChildNames(w, root, i)
  }

  ghost predicate RootNames(root: WalkNode, i: bytes) {
    exists l :: RootRefersTo(root, l) && l.blobIdentifier == i
  }

  ghost predicate TreeNames(w: World, root: WalkNode, i: bytes) {
    exists k: nat, l :: TreeAt(w, root, k, l) && l.blobIdentifier == i
  }

  ghost predicate ChildNames(w: World, root: WalkNode, i: bytes) {
    exists c, l :: ListedUnder(w, root, c) && RefersTo(c.node, l) && l.blobIdentifier == i
  }

  lemma MentionsNamed(w: World, root: WalkNode, i: bytes)
    ensures Mentions(w, root, i) <==> i != [] && Named(w, root, i)
  {
    hide HasLeaf, TreeReached, RootNames, TreeNames, ChildNames, Reachable;
    LeafNamed(w, root, i);
    TreeNamed(w, root, i);
  }

  lemma TreeNamed(w: World, root: WalkNode, i: bytes)
    ensures (exists l :: TreeReached(w, root, l) && l.blobIdentifier == i)
       <==> TreeNames(w, root, i)
  {
    hide TreeAt, Reached;
    if exists l :: TreeReached(w, root, l) && l.blobIdentifier == i {
      var l :| TreeReached(w, root, l) && l.blobIdentifier == i;
      var n :| Reachable(w, root, n) && n.isTree && n.treeLoc == Some(l);
      var k: nat :| Reached(w, root, k, n);
      ReachedTrees(w, root, k, l);
    }
    if TreeNames(w, root, i) {
      var k: nat, l :| TreeAt(w, root, k, l) && l.blobIdentifier == i;
      ReachedTrees(w, root, k, l);
      var n :| Reached(w, root, k, n) && n.isTree && n.treeLoc == Some(l);
      assert TreeReached(w, root, l);
    }
  }

  lemma LeafNamed(w: World, root: WalkNode, i: bytes)
    ensures (exists n :: Reachable(w, root, n) && HasLeaf(n, i))
       <==> RootNames(root, i) || ChildNames(w, root, i)
  {
    hide LeafLocs, ListedUnder, Reachable, ToWalk, RootRefersTo, RefersTo;
    RootReachable(w, root);
    if exists n :: Reachable(w, root, n) && HasLeaf(n, i) {
      var n :| Reachable(w, root, n) && HasLeaf(n, i);
      var l :| l in LeafLocs(n) && l.blobIdentifier == i;
      ReachableListed(w, root, n);
      if n == root {
        RootLeaves(root, l);
      } else {
        var c :| ListedUnder(w, root, c) && n == ToWalk(c.node);
        LeavesReferred(c.node, l);
      }
    }
    if RootNames(root, i) {
      var l :| RootRefersTo(root, l) && l.blobIdentifier == i;
      RootLeaves(root, l);
    }
    if ChildNames(w, root, i) {
      var c, l :| ListedUnder(w, root, c) && RefersTo(c.node, l) && l.blobIdentifier == i;
      LeavesReferred(c.node, l);
      ListedReachable(w, root, c);
      assert HasLeaf(ToWalk(c.node), i);
    }
  }

  /* ---- The worklist ---- */

  /** What one expanded tree adds: its children's leaves, and their tree locs. */
  function Leaves(cs: seq<WalkNode>): (locs: seq<BlobLoc>)
    ensures forall l :: l in locs <==> exists c :: c in cs && l in LeafLocs(c)
  {
    if cs == [] then []
    else
      var (rest, c) := (cs[..|cs| - 1], cs[|cs| - 1]);
      assert cs == rest + [c];
      Leaves(rest) + LeafLocs(c)
  }

  function Trees(cs: seq<WalkNode>): (locs: seq<BlobLoc>)
    ensures forall l :: l in locs <==> exists c :: c in cs && c.isTree && c.treeLoc == Some(l)
  {
    if cs == [] then []
    else
      var (rest, c) := (cs[..|cs| - 1], cs[|cs| - 1]);
      assert cs == rest + [c];
      Trees(rest) + if c.isTree && c.treeLoc.Some? then [c.treeLoc.value] else []
  }

  /** The loc each seen id was expanded through. */
  type Expanded = map<bytes, BlobLoc>

  /** A tree loc is taken care of: its id is expanded, or the loc is queued. */
  predicate Waiting(queue: seq<BlobLoc>, seen: Expanded, l: BlobLoc) {
    l.blobIdentifier in seen || l in queue
  }

  /** Everything queued or expanded is reachable, and the trees below what is expanded are expanded or queued. */
  ghost predicate Frontier(w: World, root: WalkNode, queue: seq<BlobLoc>, seen: Expanded) {
    && (forall l :: l in queue ==> TreeReached(w, root, l))
    && (forall i :: i in seen ==> seen[i].blobIdentifier == i && TreeReached(w, root, seen[i]))
    && (forall l :: l in Trees([root]) ==> Waiting(queue, seen, l))
    && forall i, l :: i in seen && l in Trees(Children(w, seen[i])) ==> Waiting(queue, seen, l)
  }

  ghost predicate UnderExpanded(w: World, seen: Expanded, i: bytes) {
    exists t, l :: t in seen && l in Leaves(Children(w, seen[t])) && l.blobIdentifier == i
  }

  /** The ids recorded are those of the trees expanded, their children's leaves and the root's. */
  ghost predicate Records(w: World, root: WalkNode, seen: Expanded, out: map<bytes, int>) {
    forall i :: i in out <==> (i != [] && (HasLeaf(root, i) || i in seen || UnderExpanded(w, seen, i)))
  }

  lemma ChildTreesReached(w: World, root: WalkNode, p: BlobLoc)
    requires TreeReached(w, root, p)
    ensures forall l :: l in Trees(Children(w, p)) ==> TreeReached(w, root, l)
    ensures forall c :: c in Children(w, p) ==> Reachable(w, root, c)
  {
    hide Children, Reachable;
    var n :| Reachable(w, root, n) && n.isTree && n.treeLoc == Some(p);
    forall c | c in Children(w, p) ensures Reachable(w, root, c) {
      ChildReachable(w, root, n, c);
    }
  }

  lemma FrontierStep(w: World, root: WalkNode, queue: seq<BlobLoc>, seen: Expanded)
    requires queue != [] && Frontier(w, root, queue, seen)
    ensures var (l, rest) := (queue[0], queue[1..]);
            var i := l.blobIdentifier;
            if i in seen then Frontier(w, root, rest, seen)
            else Frontier(w, root, rest + Trees(Children(w, l)), seen[i := l])
  {
    hide Children, TreeReached, Trees;
    var (l, rest) := (queue[0], queue[1..]);
    var i := l.blobIdentifier;
    assert queue == [l] + rest;
    forall m | Waiting(queue, seen, m) ensures m == l || Waiting(rest, seen, m) {}
    if i !in seen {
      ChildTreesReached(w, root, l);
      var (queue', seen') := (rest + Trees(Children(w, l)), seen[i := l]);
      forall t, m | t in seen' && m in Trees(Children(w, seen'[t])) ensures Waiting(queue', seen', m) {
        if t != i {
          assert t in seen && seen'[t] == seen[t];
          assert Waiting(queue, seen, m);
        }
      }
      forall m | m in Trees([root]) ensures Waiting(queue', seen', m) {
        assert Waiting(queue, seen, m);
      }
    }
  }

  lemma RecordsStep(w: World, root: WalkNode, seen: Expanded, out: map<bytes, int>, l: BlobLoc)
    requires Records(w, root, seen, out) && l.blobIdentifier !in seen
    ensures Records(w, root, seen[l.blobIdentifier := l], AddLocs(AddLoc(out, l), Leaves(Children(w, l))))
  {
    hide Children, HasLeaf, Leaves, UnderExpanded;
    var more := seen[l.blobIdentifier := l];
    AddLocsKeys(AddLoc(out, l), Leaves(Children(w, l)));
    forall i
      ensures UnderExpanded(w, more, i) <==>
                (UnderExpanded(w, seen, i) || exists m :: m in Leaves(Children(w, l)) && m.blobIdentifier == i)
    {
      UnderOneMore(w, seen, l, i);
    }
  }

  lemma UnderOneMore(w: World, seen: Expanded, l: BlobLoc, i: bytes)
    requires l.blobIdentifier !in seen
    ensures UnderExpanded(w, seen[l.blobIdentifier := l], i) <==>
            (UnderExpanded(w, seen, i) || exists m :: m in Leaves(Children(w, l)) && m.blobIdentifier == i)
  {
    hide Children, Leaves;
    var more := seen[l.blobIdentifier := l];
    if UnderExpanded(w, seen, i) {
      var t, m :| t in seen && m in Leaves(Children(w, seen[t])) && m.blobIdentifier == i;
      assert t in more && more[t] == seen[t];
    }
    if exists m :: m in Leaves(Children(w, l)) && m.blobIdentifier == i {
      var m :| m in Leaves(Children(w, l)) && m.blobIdentifier == i;
      assert more[l.blobIdentifier] == l;
    }
  }

  /** The body of the loop: fetch and parse one tree, record its children's blobs, queue its subtrees. */
  method Expand(w: World, l: BlobLoc, before: map<bytes, int>) returns (out: map<bytes, int>, more: seq<BlobLoc>)
    ensures out == AddLocs(AddLoc(before, l), Leaves(Children(w, l))) && more == Trees(Children(w, l))
  {
    hide AddLoc, AddLocs, LeafLocs, Children, Leaves, Trees;
    out, more := AddLoc(before, l), [];
    var cs := Children(w, l);
    NoneWalked(out, cs);
    for k := 0 to |cs|
      invariant out == AddLocs(AddLoc(before, l), Leaves(cs[..k])) && more == Trees(cs[..k])
    {
      OneWalked(cs, k);
      AddLocsJoin(AddLoc(before, l), Leaves(cs[..k]), LeafLocs(cs[k]));
      out := AddAll(out, LeafLocs(cs[k]));
      if cs[k].isTree && cs[k].treeLoc.Some? {
        more := more + [cs[k].treeLoc.value];
      }
    }
    assert cs[..|cs|] == cs;
  }

  lemma NoneWalked(out: map<bytes, int>, cs: seq<WalkNode>)
    ensures AddLocs(out, Leaves(cs[..0])) == out && Trees(cs[..0]) == []
  {}

  lemma OneWalked(cs: seq<WalkNode>, k: nat)
    requires k < |cs|
    ensures Leaves(cs[..k + 1]) == Leaves(cs[..k]) + LeafLocs(cs[k])
    ensures Trees(cs[..k + 1]) == Trees(cs[..k]) + if cs[k].isTree && cs[k].treeLoc.Some? then [cs[k].treeLoc.value]
        else []
  {
    hide LeafLocs;
    assert cs[..k + 1][..k] == cs[..k];
  }

  lemma {:induction false} AddLocsJoin(out: map<bytes, int>, a: seq<BlobLoc>, b: seq<BlobLoc>)
    ensures AddLocs(AddLocs(out, a), b) == AddLocs(out, a + b)
    decreases |b|
  {
    if b == [] {
      assert a + b == a;
    } else {
      AddLocsJoin(out, a, b[..|b| - 1]);
      assert (a + b)[..|a + b| - 1] == a + b[..|b| - 1];
    }
  }

  /** `order` lists the tree locs a walk from this queue expands, in order; one whose id was seen is passed over. */
  ghost predicate Expands(w: World, queue: seq<BlobLoc>, seen: set<bytes>, order: seq<BlobLoc>)
    decreases |order|, |queue|
  {
    if queue == [] then order == []
    else
      var (l, rest) := (queue[0], queue[1..]);
      if l.blobIdentifier in seen then Expands(w, rest, seen, order)
      else
        && order != [] && order[0] == l
        && Expands(w, rest + Trees(Children(w, l)), seen + {l.blobIdentifier}, order[1..])
  }

  /** The locs met when these trees are expanded: each tree's own, then its children's. */
  function Met(w: World, order: seq<BlobLoc>): seq<BlobLoc> {
    if order == [] then []
    else
      var (rest, l) := (order[..|order| - 1], order[|order| - 1]);
      Met(w, rest) + ([l] + Leaves(Children(w, l)))
  }

  /** A walk that goes on from here as the rules say has gone by the rules from the start. */
  ghost predicate Tracks(w: World, start: seq<BlobLoc>, queue: seq<BlobLoc>, seen: set<bytes>, order: seq<BlobLoc>) {
    forall more :: Expands(w, queue, seen, more) ==> Expands(w, start, {}, order + more)
  }

  lemma TracksOn(w: World, start: seq<BlobLoc>, queue: seq<BlobLoc>, seen: set<bytes>, order: seq<BlobLoc>)
    requires queue != [] && Tracks(w, start, queue, seen, order)
    ensures var (l, rest) := (queue[0], queue[1..]);
            if l.blobIdentifier in seen then Tracks(w, start, rest, seen, order)
            else Tracks(w, start, rest + Trees(Children(w, l)), seen + {l.blobIdentifier}, order + [l])
  {
    hide Trees, Children;
    var (l, rest) := (queue[0], queue[1..]);
    if l.blobIdentifier in seen {
      forall more | Expands(w, rest, seen, more) ensures Expands(w, start, {}, order + more) {
        assert Expands(w, queue, seen, more);
      }
    } else {
      forall more | Expands(w, rest + Trees(Children(w, l)), seen + {l.blobIdentifier}, more)
        ensures Expands(w, start, {}, (order + [l]) + more)
      {
        assert ([l] + more)[1..] == more;
        assert Expands(w, queue, seen, [l] + more);
        assert order + ([l] + more) == (order + [l]) + more;
      }
    }
  }

  lemma TracksAtFirst(w: World, start: seq<BlobLoc>)
    ensures Tracks(w, start, start, {}, [])
  {
    forall more: seq<BlobLoc> ensures [] + more == more {}
  }

  lemma TracksToTheEnd(w: World, start: seq<BlobLoc>, seen: set<bytes>, order: seq<BlobLoc>)
    requires Tracks(w, start, [], seen, order)
    ensures Expands(w, start, {}, order)
  {
    assert Expands(w, [], seen, []) && order + [] == order;
  }

  lemma MetOneMore(w: World, first: seq<BlobLoc>, order: seq<BlobLoc>, l: BlobLoc)
    ensures AddLocs(AddLoc(AddLocs(map[], first + Met(w, order)), l), Leaves(Children(w, l)))
         == AddLocs(map[], first + Met(w, order + [l]))
  {
    hide AddLoc, Leaves, Children;
    var more := Leaves(Children(w, l));
    assert (order + [l])[..|order|] == order;
    AddLocsJoin(map[], first + Met(w, order), [l] + more);
    assert first + Met(w, order + [l]) == (first + Met(w, order)) + ([l] + more);
    AddLocsJoin(AddLocs(map[], first + Met(w, order)), [l], more);
    OneLoc(AddLocs(map[], first + Met(w, order)), l);
  }

  lemma OneLoc(out: map<bytes, int>, l: BlobLoc)
    ensures AddLocs(out, [l]) == AddLoc(out, l)
  {
    hide AddLoc;
    assert [l][..0] == [];
  }

  /** Each tree id is expanded once. */
  lemma {:induction false} ExpandedOnce(w: World, queue: seq<BlobLoc>, seen: set<bytes>, order: seq<BlobLoc>)
    requires Expands(w, queue, seen, order)
    ensures forall i :: 0 <= i < |order| ==> order[i].blobIdentifier !in seen
    ensures forall i, j :: 0 <= i < j < |order| ==> order[i].blobIdentifier != order[j].blobIdentifier
    decreases |order|, |queue|
  {
    hide Trees, Children;
    if queue != [] {
      var (l, rest) := (queue[0], queue[1..]);
      if l.blobIdentifier in seen {
        ExpandedOnce(w, rest, seen, order);
      } else {
        ExpandedOnce(w, rest + Trees(Children(w, l)), seen + {l.blobIdentifier}, order[1..]);
        assert order == [l] + order[1..];
      }
    }
  }

  /** The length recorded for an id is that of the first loc met with it. */
  ghost predicate FirstLength(locs: seq<BlobLoc>, i: bytes, length: int) {
    exists k :: 0 <= k < |locs| && locs[k].blobIdentifier == i && locs[k].length == length
                && forall h :: 0 <= h < k ==> locs[h].blobIdentifier != i
  }

  lemma {:induction false} FirstLengths(locs: seq<BlobLoc>)
    ensures forall i :: i in AddLocs(map[], locs) ==> FirstLength(locs, i, AddLocs(map[], locs)[i])
    decreases |locs|
  {
    if locs != [] {
      var (rest, last) := (locs[..|locs| - 1], locs[|locs| - 1]);
      assert locs == rest + [last];
      FirstLengths(rest);
      AddLocsKeys(map[], rest);
      var (before, after) := (AddLocs(map[], rest), AddLocs(map[], locs));
      forall i | i in after ensures FirstLength(locs, i, after[i]) {
        if i in before {
          var k :| 0 <= k < |rest| && rest[k].blobIdentifier == i && rest[k].length == before[i]
                   && forall h :: 0 <= h < k ==> rest[h].blobIdentifier != i;
          assert locs[k] == rest[k] && after[i] == before[i];
        } else {
          assert locs[|locs| - 1].blobIdentifier == i;
        }
      }
    }
  }

  /** The locs met by a walk of the whole snapshot that expands these trees. */
  function AllMet(w: World, root: WalkNode, order: seq<BlobLoc>): seq<BlobLoc> { LeafLocs(root) + Met(w, order) }

  /**
   _collect: it ends however the blobs refer to one another, expanding each tree id once, breadth first; it records, in
   the order met, the first length of every id; what is collected is mentioned by the snapshot, and where trees are
   content-addressed it is all that is mentioned.
  */
  method Collect(w: World, root: WalkNode) returns (out: map<bytes, int>, ghost order: seq<BlobLoc>)
    ensures Expands(w, Trees([root]), {}, order) && out == AddLocs(map[], AllMet(w, root, order))
    ensures forall i :: i in out ==> i != [] && Named(w, root, i)
    ensures Addressed(w, root) ==> forall i :: i != [] && Named(w, root, i) ==> i in out
  {
    hide Frontier, Records, LeafLocs, Children, Trees, Leaves, Named, Universe, AddLoc, AddLocs, Mentions, Addressed,
         Tracks, Expands, Met;
    ghost var seen: Expanded := map[];
    out := AddAll(map[], LeafLocs(root));
    AtFirst(w, root, out);
    var queue := Trees([root]);
    var seenTrees: set<bytes> := {};
    order := [];
    TracksAtFirst(w, queue);
    NothingMet(w, root);
    while queue != []
      invariant Frontier(w, root, queue, seen) && Records(w, root, seen, out) && seenTrees == seen.Keys
      invariant seenTrees <= Universe(w, root)
      invariant Tracks(w, Trees([root]), queue, seenTrees, order) && out == AddLocs(map[], AllMet(w, root, order))
      decreases |Universe(w, root) - seenTrees|, |queue|
    {
      var l := queue[0];
      FrontierStep(w, root, queue, seen);
      QueuedKnown(w, root, queue, seen);
      TracksOn(w, Trees([root]), queue, seenTrees, order);
      queue := queue[1..];
      if l.blobIdentifier !in seenTrees {
        Fewer(Universe(w, root), seenTrees, l.blobIdentifier);
        RecordsStep(w, root, seen, out, l);
        MetOneMore(w, LeafLocs(root), order, l);
        seenTrees, seen, order := seenTrees + {l.blobIdentifier}, seen[l.blobIdentifier := l], order + [l];
        var more: seq<BlobLoc>;
        out, more := Expand(w, l, out);
        queue := queue + more;
      }
    }
    TracksToTheEnd(w, Trees([root]), seenTrees, order);
    Collected(w, root, seen, out);
    forall i ensures Mentions(w, root, i) <==> i != [] && Named(w, root, i) { MentionsNamed(w, root, i); }
  }

  lemma NothingMet(w: World, root: WalkNode)
    ensures AllMet(w, root, []) == LeafLocs(root)
  {
    hide LeafLocs;
  }

  lemma Collected(w: World, root: WalkNode, seen: Expanded, out: map<bytes, int>)
    requires Records(w, root, seen, out) && Frontier(w, root, [], seen)
    ensures forall i :: i in out ==> Mentions(w, root, i)
    ensures Addressed(w, root) ==> forall i :: Mentions(w, root, i) ==> i in out
  {
    hide Frontier, Records, Mentions, Addressed;
    forall i | i in out ensures Mentions(w, root, i) { CollectsOnly(w, root, seen, out, i); }
    if Addressed(w, root) {
      forall i | Mentions(w, root, i) ensures i in out { CollectsAll(w, root, seen, out, i); }
    }
  }

  lemma QueuedKnown(w: World, root: WalkNode, queue: seq<BlobLoc>, seen: Expanded)
    requires queue != [] && Frontier(w, root, queue, seen)
    ensures queue[0].blobIdentifier in Universe(w, root)
  {
    hide Children, Trees, Reachable;
    assert queue[0] in queue;
    var n :| Reachable(w, root, n) && n.isTree && n.treeLoc == Some(queue[0]);
    ReachedKnown(w, root, n);
  }

  lemma AtFirst(w: World, root: WalkNode, out: map<bytes, int>)
    requires out == AddLocs(map[], LeafLocs(root))
    ensures Frontier(w, root, Trees([root]), map[]) && Records(w, root, map[], out)
  {
    hide LeafLocs, Children, Reachable;
    AddLocsKeys(map[], LeafLocs(root));
    RootReachable(w, root);
  }

  /* ---- The result ---- */

  /** Under content addressing, every reachable tree's id is expanded. */
  lemma {:induction false} ReachedExpanded(w: World, root: WalkNode, seen: Expanded, k: nat, n: WalkNode)
    requires Frontier(w, root, [], seen) && Addressed(w, root) && Reached(w, root, k, n) && n.isTree && n.treeLoc.Some?
    ensures n.treeLoc.value.blobIdentifier in seen
    ensures Children(w, seen[n.treeLoc.value.blobIdentifier]) == Children(w, n.treeLoc.value)
    decreases k
  {
    hide Children, Trees;
    hide Frontier, Reachable, Addressed;
    var l := n.treeLoc.value;
    if k == 0 {
      RootExpanded(w, root, seen);
    } else {
      var p: WalkNode :| Reached(w, root, k - 1, p) && p.isTree && p.treeLoc.Some? && n in Children(w, p.treeLoc.value);
      ReachedExpanded(w, root, seen, k - 1, p);
      ChildExpanded(w, root, seen, p.treeLoc.value.blobIdentifier, n);
    }
    SameChildren(w, root, seen, k, n);
  }

  lemma RootExpanded(w: World, root: WalkNode, seen: Expanded)
    requires Frontier(w, root, [], seen) && root.isTree && root.treeLoc.Some?
    ensures root.treeLoc.value.blobIdentifier in seen
  {
    hide Children, TreeReached, Trees;
    assert root in [root];
    assert root.treeLoc.value in Trees([root]);
    assert Waiting([], seen, root.treeLoc.value);
  }

  lemma ChildExpanded(w: World, root: WalkNode, seen: Expanded, i: bytes, n: WalkNode)
    requires Frontier(w, root, [], seen) && i in seen && n in Children(w, seen[i]) && n.isTree && n.treeLoc.Some?
    ensures n.treeLoc.value.blobIdentifier in seen
  {
    hide Children, TreeReached, Trees;
    var l := n.treeLoc.value;
    assert l in Trees(Children(w, seen[i]));
    assert Waiting([], seen, l);
  }

  lemma SameChildren(w: World, root: WalkNode, seen: Expanded, k: nat, n: WalkNode)
    requires Frontier(w, root, [], seen) && Addressed(w, root) && Reached(w, root, k, n) && IsTree(n)
    requires n.treeLoc.value.blobIdentifier in seen
    ensures Children(w, seen[n.treeLoc.value.blobIdentifier]) == Children(w, n.treeLoc.value)
  {
    hide Children, Trees, Reached;
    var e := seen[n.treeLoc.value.blobIdentifier];
    var m :| Reachable(w, root, m) && m.isTree && m.treeLoc == Some(e);
    assert Reachable(w, root, n);
  }

  lemma LeafRecorded(w: World, root: WalkNode, seen: Expanded, n: WalkNode, i: bytes)
    requires Frontier(w, root, [], seen) && Addressed(w, root) && Reachable(w, root, n) && HasLeaf(n, i)
    ensures HasLeaf(root, i) || UnderExpanded(w, seen, i)
  {
    hide Children, Trees, Addressed, LeafLocs, Frontier;
    var k: nat :| Reached(w, root, k, n);
    if k > 0 {
      var p: WalkNode :| Reached(w, root, k - 1, p) && p.isTree && p.treeLoc.Some? && n in Children(w, p.treeLoc.value);
      ReachedExpanded(w, root, seen, k - 1, p);
      var l :| l in LeafLocs(n) && l.blobIdentifier == i;
      assert l in Leaves(Children(w, p.treeLoc.value));
    }
  }

  /** Nothing is collected that the snapshot does not mention. */
  lemma CollectsOnly(w: World, root: WalkNode, seen: Expanded, out: map<bytes, int>, i: bytes)
    requires Records(w, root, seen, out) && Frontier(w, root, [], seen) && i in out
    ensures Mentions(w, root, i)
  {
    hide Children, Trees, Leaves, LeafLocs;
    RootReachable(w, root);
    if UnderExpanded(w, seen, i) {
      var t, l :| t in seen && l in Leaves(Children(w, seen[t])) && l.blobIdentifier == i;
      ChildTreesReached(w, root, seen[t]);
    }
  }

  /** Under content addressing everything the snapshot mentions is collected. */
  lemma CollectsAll(w: World, root: WalkNode, seen: Expanded, out: map<bytes, int>, i: bytes)
    requires Records(w, root, seen, out) && Frontier(w, root, [], seen) && Addressed(w, root) && Mentions(w, root, i)
    ensures i in out
  {
    hide Children, Trees, Leaves, Addressed, LeafLocs, Frontier;
    if exists n :: Reachable(w, root, n) && HasLeaf(n, i) {
      var n :| Reachable(w, root, n) && HasLeaf(n, i);
      LeafRecorded(w, root, seen, n, i);
    } else {
      var l :| TreeReached(w, root, l) && l.blobIdentifier == i;
      var n :| Reachable(w, root, n) && n.isTree && n.treeLoc == Some(l);
      var k: nat :| Reached(w, root, k, n);
      ReachedExpanded(w, root, seen, k, n);
    }
  }

  /* ---- Comparing two snapshots ---- */

  /** The sum of the lengths recorded for these ids. */
  ghost function SumOver(m: map<bytes, int>, ids: set<bytes>): int
    requires ids <= m.Keys
  {
    if ids == {} then 0
    else
      var i :| i in ids;
      m[i] + SumOver(m, ids - {i})
  }

  /** Whichever id is taken first. */
  lemma {:induction false} SumTakes(m: map<bytes, int>, ids: set<bytes>, k: bytes)
    requires ids <= m.Keys && k in ids
    ensures SumOver(m, ids) == m[k] + SumOver(m, ids - {k})
    decreases |ids|
  {
    var i :| i in ids && SumOver(m, ids) == m[i] + SumOver(m, ids - {i});
    if i != k {
      SumTakes(m, ids - {i}, k);
      SumTakes(m, ids - {k}, i);
      assert ids - {i} - {k} == ids - {k} - {i};
    }
  }

  lemma {:induction false} SumSplits(m: map<bytes, int>, a: set<bytes>, b: set<bytes>)
    requires a + b <= m.Keys && a !! b
    ensures SumOver(m, a + b) == SumOver(m, a) + SumOver(m, b)
    decreases |a|
  {
    if a == {} {
      assert a + b == b;
    } else {
      var k :| k in a;
      SumTakes(m, a, k);
      SumTakes(m, a + b, k);
      assert a + b - {k} == (a - {k}) + b;
      SumSplits(m, a - {k}, b);
    }
  }

  method SumLengths(m: map<bytes, int>, ids: set<bytes>) returns (sum: int)
    requires ids <= m.Keys
    ensures sum == SumOver(m, ids)
  {
    var left := ids;
    sum := 0;
    while left != {}
      invariant left <= ids && sum + SumOver(m, left) == SumOver(m, ids)
      decreases |left|
    {
      var i :| i in left;
      SumTakes(m, left, i);
      sum, left := sum + m[i], left - {i};
    }
  }

  /** A DedupReport */
  datatype Report = Report(
    aCount: nat, bCount: nat, shared: nat, aUnique: nat, bUnique: nat, aBytes: int, bBytes: int, sharedBytes: int)

  ghost function Compare(a: map<bytes, int>, b: map<bytes, int>): Report {
    Report(|a.Keys|, |b.Keys|, |a.Keys * b.Keys|, |a.Keys - b.Keys|, |b.Keys - a.Keys|,
           SumOver(a, a.Keys), SumOver(b, b.Keys), SumOver(a, a.Keys * b.Keys))
  }

  /** What _collect returns for a snapshot. */
  ghost predicate CollectionOf(w: World, root: WalkNode, ids: map<bytes, int>) {
    && (exists order :: Expands(w, Trees([root]), {}, order) && ids == AddLocs(map[], AllMet(w, root, order)))
    && (forall i :: i in ids ==> i != [] && Named(w, root, i))
    && (Addressed(w, root) ==> forall i :: i != [] && Named(w, root, i) ==> i in ids)
  }

  /**
   measure_dedup_ratio, from the two root nodes on: the counts and the bytes are those of what is collected of the two
   snapshots, the shared bytes by the first one's lengths.
  */
  method MeasureDedup(w: World, rootA: WalkNode, rootB: WalkNode)
    returns (r: Report, ghost a: map<bytes, int>, ghost b: map<bytes, int>)
    ensures CollectionOf(w, rootA, a) && CollectionOf(w, rootB, b)
    ensures (r.aCount, r.bCount) == (|a.Keys|, |b.Keys|) && r.shared == |a.Keys * b.Keys|
    ensures r.aUnique == |a.Keys - b.Keys| && r.bUnique == |b.Keys - a.Keys|
    ensures (r.aBytes, r.bBytes) == (SumOver(a, a.Keys), SumOver(b, b.Keys))
        && r.sharedBytes == SumOver(a, a.Keys * b.Keys)
    ensures r.shared + r.aUnique == r.aCount && r.shared + r.bUnique == r.bCount
    ensures r.sharedBytes + SumOver(a, a.Keys - b.Keys) == r.aBytes
  {
    hide Addressed, Named, Expands, AddLocs, AllMet, Trees, SumOver;
    var blobsA, orderA := Collect(w, rootA);
    var blobsB, orderB := Collect(w, rootB);
    SidesAddUp(blobsA, blobsB);
    var aBytes := SumLengths(blobsA, blobsA.Keys);
    var bBytes := SumLengths(blobsB, blobsB.Keys);
    var shared := blobsA.Keys * blobsB.Keys;
    var sharedBytes := SumLengths(blobsA, shared);
    a, b := blobsA, blobsB;
    r := Report(|blobsA.Keys|, |blobsB.Keys|, |shared|, |blobsA.Keys - blobsB.Keys|, |blobsB.Keys - blobsA.Keys|,
                aBytes, bBytes, sharedBytes);
  }

  /** Shared and unique blobs add up to each side's, and so do their bytes. */
  lemma SidesAddUp(a: map<bytes, int>, b: map<bytes, int>)
    ensures var r := Compare(a, b);
            && r.shared + r.aUnique == r.aCount && r.shared + r.bUnique == r.bCount
            && r.sharedBytes + SumOver(a, a.Keys - b.Keys) == r.aBytes
  {
    hide SumOver;
    InAndOut(a.Keys, b.Keys);
    InAndOut(b.Keys, a.Keys);
    assert a.Keys * b.Keys == b.Keys * a.Keys;
    SumSplits(a, a.Keys * b.Keys, a.Keys - b.Keys);
  }

  lemma InAndOut(x: set<bytes>, y: set<bytes>)
    ensures x == (x * y) + (x - y) && |x| == |x * y| + |x - y|
  {
    assert x == (x * y) + (x - y);
  }

  /** Where trees are content-addressed, the counts are those of the ids the snapshots mention. */
  lemma ReportCountsMentions(w: World, rootA: WalkNode, rootB: WalkNode, a: map<bytes, int>, b: map<bytes, int>)
    requires CollectionOf(w, rootA, a) && CollectionOf(w, rootB, b) && Addressed(w, rootA) && Addressed(w, rootB)
    ensures forall i :: i in a.Keys * b.Keys <==> i != [] && Named(w, rootA, i) && Named(w, rootB, i)
    ensures forall i :: i in a.Keys - b.Keys <==> i != [] && Named(w, rootA, i) && !Named(w, rootB, i)
  {
    hide Named, Addressed, Expands, AllMet, AddLocs;
  }
}
