/** The graph of blobs a record reaches: tree locs, and the data, xattr and ACL locs of their children. */
module BlobGraph {
  import opened Wrappers
  import opened Bytes
  import opened TreeFormat

  /** What the backend holds at each loc, and what decrypting and parsing some bytes as a tree gives, if it succeeds. */
  datatype World = World(objects: map<BlobLoc, bytes>, decode: bytes -> Option<Tree>)

  /** The uniform shape nodes are walked in; a record's root may lack its tree loc. */
  datatype WalkNode = WalkNode(isTree: bool, treeLoc: Option<BlobLoc>, dataLocs: seq<BlobLoc>, xattrLocs: seq<BlobLoc>,
      aclLoc: Option<BlobLoc>)

  /** The node is a directory whose tree has a loc. */
  predicate IsTree(n: WalkNode) { n.isTree && n.treeLoc.Some? }

  /** _node_to_walk_dict */
  function ToWalk(n: Node): WalkNode {
    match n
    case TreeNode(loc, meta) => WalkNode(true, Some(loc), [], meta.xattrsBlobLocs, meta.aclBlobLoc)
    case FileNode(locs, meta) => WalkNode(false, None, locs, meta.xattrsBlobLocs, meta.aclBlobLoc)
  }

  function AclLocs(n: WalkNode): seq<BlobLoc> {
    if n.aclLoc.Some? then [n.aclLoc.value] else []
  }

  /** The locs of a node that are not trees. */
  function LeafLocs(n: WalkNode): seq<BlobLoc> {
    n.xattrLocs + AclLocs(n) + if n.isTree then [] else n.dataLocs
  }

  predicate Opens(w: World, l: BlobLoc) {
    l in w.objects && w.decode(w.objects[l]).Some?
  }

  function Children(w: World, l: BlobLoc): seq<WalkNode> {
    if Opens(w, l) then Walked(w.decode(w.objects[l]).value.children) else []
  }

  function Walked(children: seq<TreeChild>): (ns: seq<WalkNode>)
    ensures |ns| == |children| && forall i :: 0 <= i < |children| ==> ns[i] == ToWalk(children[i].node)
  {
    seq(|children|, i requires 0 <= i < |children| => ToWalk(children[i].node))
  }

  /** Every tree id that a stored tree mentions, and the root's. */
  ghost function Universe(w: World, root: WalkNode): set<bytes> {
    (set l, n | l in w.objects && n in Children(w, l) && n.treeLoc.Some? :: n.treeLoc.value.blobIdentifier)
    + if root.treeLoc.Some? then {root.treeLoc.value.blobIdentifier} else {}
  }

  lemma InUniverse(w: World, root: WalkNode, l: BlobLoc, n: WalkNode)
    requires n in Children(w, l) && n.treeLoc.Some?
    ensures n.treeLoc.value.blobIdentifier in Universe(w, root)
  {}

  /** The node is `k` trees below the root. */
  ghost predicate Reached(w: World, root: WalkNode, k: nat, n: WalkNode)
    decreases k
  {
    if k == 0 then n == root
    else exists p: WalkNode ::
        Reached(w, root, k - 1, p) && p.isTree && p.treeLoc.Some? && n in Children(w, p.treeLoc.value)
  }

  ghost predicate Reachable(w: World, root: WalkNode, n: WalkNode) {
    exists k: nat :: Reached(w, root, k, n)
  }

  lemma RootReachable(w: World, root: WalkNode)
    ensures Reachable(w, root, root)
  {
    assert Reached(w, root, 0, root);
  }

  lemma ChildReachable(w: World, root: WalkNode, p: WalkNode, n: WalkNode)
    requires Reachable(w, root, p) && p.isTree && p.treeLoc.Some? && n in Children(w, p.treeLoc.value)
    ensures Reachable(w, root, n)
  {
    var k: nat :| Reached(w, root, k, p);
    assert Reached(w, root, k + 1, n);
  }

  /** Content addressing, for what the record reaches: tree locs with one id open the same tree, or all fail to. */
  ghost predicate Addressed(w: World, root: WalkNode) {
    forall m, n :: Reachable(w, root, m) && Reachable(w, root, n) && IsTree(m) && IsTree(n)
      && m.treeLoc.value.blobIdentifier == n.treeLoc.value.blobIdentifier
      ==> Children(w, m.treeLoc.value) == Children(w, n.treeLoc.value)
  }

  lemma Fewer(u: set<bytes>, s: set<bytes>, i: bytes)
    requires i in u && i !in s
    ensures |u - (s + {i})| < |u - s|
  {
    assert u - s == (u - (s + {i})) + {i};
  }

  lemma ReachedKnown(w: World, root: WalkNode, n: WalkNode)
    requires Reachable(w, root, n) && n.treeLoc.Some?
    ensures n.treeLoc.value.blobIdentifier in Universe(w, root)
  {
    hide Universe;
    var k: nat :| Reached(w, root, k, n);
    if k == 0 {
      RootKnown(w, root);
    } else {
      var p: WalkNode :| Reached(w, root, k - 1, p) && p.isTree && p.treeLoc.Some? && n in Children(w, p.treeLoc.value);
      InUniverse(w, root, p.treeLoc.value, n);
    }
  }

  lemma RootKnown(w: World, root: WalkNode)
    ensures root.treeLoc.Some? ==> root.treeLoc.value.blobIdentifier in Universe(w, root)
  {}

  /* ---- The same graph, of the parsed trees alone ---- */

  /** The loc is the root's tree loc, or that of a directory listed in a tree k trees below it. */
  ghost predicate TreeAt(w: World, root: WalkNode, k: nat, l: BlobLoc)
    decreases k
  {
    if k == 0 then root.isTree && root.treeLoc == Some(l)
    else exists m: BlobLoc, c: TreeChild ::
      TreeAt(w, root, k - 1, m) && Lists(w, m, c) && c.node.TreeNode? && c.node.treeBlobLoc == l
  }

  /** The blob at the loc is there, opens, and lists the child. */
  ghost predicate Lists(w: World, l: BlobLoc, c: TreeChild) {
    l in w.objects && w.decode(w.objects[l]).Some? && c in w.decode(w.objects[l]).value.children
  }

  /** Some tree of the record lists the child. */
  ghost predicate ListedUnder(w: World, root: WalkNode, c: TreeChild) {
    exists k: nat, l: BlobLoc :: TreeAt(w, root, k, l) && Lists(w, l, c)
  }

  lemma ChildListed(w: World, l: BlobLoc, n: WalkNode)
    ensures n in Children(w, l) <==> exists c :: Lists(w, l, c) && n == ToWalk(c.node)
  {
    hide ToWalk;
    if n in Children(w, l) {
      var cs := w.decode(w.objects[l]).value.children;
      var i :| 0 <= i < |cs| && Children(w, l)[i] == n;
      assert Lists(w, l, cs[i]);
    }
    if exists c :: Lists(w, l, c) && n == ToWalk(c.node) {
      var c :| Lists(w, l, c) && n == ToWalk(c.node);
      var cs := w.decode(w.objects[l]).value.children;
      var i :| 0 <= i < |cs| && cs[i] == c;
      assert Children(w, l)[i] == n;
    }
  }

  /** The directories reached are those whose tree locs the parsed trees give. */
  lemma {:induction false} ReachedTrees(w: World, root: WalkNode, k: nat, l: BlobLoc)
    ensures TreeAt(w, root, k, l) <==> exists n :: Reached(w, root, k, n) && n.isTree && n.treeLoc == Some(l)
    decreases k
  {
    hide Children, Lists;
    if k == 0 {
      assert Reached(w, root, 0, root);
    } else {
      if TreeAt(w, root, k, l) {
        var m: BlobLoc, c: TreeChild :|
          TreeAt(w, root, k - 1, m) && Lists(w, m, c) && c.node.TreeNode? && c.node.treeBlobLoc == l;
        ReachedTrees(w, root, k - 1, m);
        var p :| Reached(w, root, k - 1, p) && p.isTree && p.treeLoc == Some(m);
        ChildListed(w, m, ToWalk(c.node));
        assert Reached(w, root, k, ToWalk(c.node));
      }
      if exists n :: Reached(w, root, k, n) && n.isTree && n.treeLoc == Some(l) {
        var n :| Reached(w, root, k, n) && n.isTree && n.treeLoc == Some(l);
        var p: WalkNode :| Reached(w, root, k - 1, p) && p.isTree && p.treeLoc.Some?
            && n in Children(w, p.treeLoc.value);
        ReachedTrees(w, root, k - 1, p.treeLoc.value);
        ChildListed(w, p.treeLoc.value, n);
        var c :| Lists(w, p.treeLoc.value, c) && n == ToWalk(c.node);
        assert c.node.TreeNode? && c.node.treeBlobLoc == l;
      }
    }
  }

  /** Beside the root, the nodes reached are the children that the record's trees list. */
  lemma ReachableListed(w: World, root: WalkNode, n: WalkNode)
    ensures Reachable(w, root, n) <==> n == root || exists c :: ListedUnder(w, root, c) && n == ToWalk(c.node)
  {
    hide Children, Lists, ToWalk, TreeAt;
    if Reachable(w, root, n) {
      var k: nat :| Reached(w, root, k, n);
      if k > 0 {
        var p: WalkNode :| Reached(w, root, k - 1, p) && p.isTree && p.treeLoc.Some?
            && n in Children(w, p.treeLoc.value);
        ReachedTrees(w, root, k - 1, p.treeLoc.value);
        ChildListed(w, p.treeLoc.value, n);
        var c :| Lists(w, p.treeLoc.value, c) && n == ToWalk(c.node);
        assert ListedUnder(w, root, c);
      }
    }
    if n == root {
      RootReachable(w, root);
    }
    if exists c :: ListedUnder(w, root, c) && n == ToWalk(c.node) {
      var c :| ListedUnder(w, root, c) && n == ToWalk(c.node);
      ListedReachable(w, root, c);
    }
  }

  lemma ListedReachable(w: World, root: WalkNode, c: TreeChild)
    requires ListedUnder(w, root, c)
    ensures Reachable(w, root, ToWalk(c.node))
  {
    hide Children, Lists, ToWalk, TreeAt, Reachable;
    var k: nat, l: BlobLoc :| TreeAt(w, root, k, l) && Lists(w, l, c);
    ReachedTrees(w, root, k, l);
    var p :| Reached(w, root, k, p) && p.isTree && p.treeLoc == Some(l);
    assert Reachable(w, root, p) by { Reaches(w, root, k, p); }
    ChildListed(w, l, ToWalk(c.node));
    ChildReachable(w, root, p, ToWalk(c.node));
  }

  lemma Reaches(w: World, root: WalkNode, k: nat, n: WalkNode)
    requires Reached(w, root, k, n)
    ensures Reachable(w, root, n)
  {}

  /** The locs a parsed node refers to, its tree's apart. */
  ghost predicate RefersTo(n: Node, l: BlobLoc) {
    || l in n.meta.xattrsBlobLocs || n.meta.aclBlobLoc == Some(l) || (n.FileNode? && l in n.dataBlobLocs)
  }

  /** Those of the record's root. */
  ghost predicate RootRefersTo(root: WalkNode, l: BlobLoc) {
    || l in root.xattrLocs || root.aclLoc == Some(l) || (!root.isTree && l in root.dataLocs)
  }

  lemma RootLeaves(root: WalkNode, l: BlobLoc)
    ensures l in LeafLocs(root) <==> RootRefersTo(root, l)
  {}

  lemma LeavesReferred(n: Node, l: BlobLoc)
    ensures l in LeafLocs(ToWalk(n)) <==> RefersTo(n, l)
    ensures IsTree(ToWalk(n)) <==> n.TreeNode?
    ensures n.TreeNode? ==> ToWalk(n).treeLoc == Some(n.treeBlobLoc)
  {}
}
