/** Blobs remembered by plaintext, and why what they describe survives growth and serialization. */
module Recording {
  import opened Wrappers
  import opened Bytes
  import opened TreeFormat
  import TreeRoundTrip
  import opened Snapshot
  import opened PathFilter
  import opened BlobStore

  /** The plaintext first written under each blob identifier. */
  type Origin = map<bytes, bytes>

  function RecallId(o: Origin): bytes -> Result<bytes> {
    id => if id in o then Ok(o[id]) else Err
  }

  /** A loc of the shape the standalone mode writes: addressed by its identifier alone. */
  predicate WellAddressed(cu: bytes, loc: BlobLoc) {
    && |loc.blobIdentifier| == BLOB_ID_LENGTH && !loc.isPacked && loc.compressionType == COMPRESSION_LZ4
    && loc.relativePath == PathForBlob(cu, loc.blobIdentifier)
  }

  function Recall(cu: bytes, o: Origin): Fetcher {
    (loc: BlobLoc) => if WellAddressed(cu, loc) && loc.blobIdentifier in o then Ok(o[loc.blobIdentifier]) else Err
  }

  ghost predicate Grows<T>(o: map<bytes, T>, o': map<bytes, T>) {
    forall id :: id in o ==> id in o' && o'[id] == o[id]
  }

  /** A node that describes a snapshot through the recalled plaintexts. */
  ghost predicate Records(cu: bytes, o: Origin, n: Node, s: Snap) { Describes(Recall(cu, o), RecallId(o), n, s) }

  ghost predicate RecordsAll(cu: bytes, o: Origin, ts: seq<TreeChild>, cs: seq<SnapChild>) {
    DescribesAll(Recall(cu, o), RecallId(o), ts, cs)
  }

  /** What a node needs for the serializer to keep every field that matters for restoring it. */
  ghost predicate Storable(n: Node) {
    && TreeRoundTrip.SizedNode(n)
    && (n.FileNode? ==> 0 <= n.meta.itemSize < TWO_TO_64 && TreeRoundTrip.FitsMac(n.meta.mac))
  }

  ghost predicate AllIntact(cs: seq<SnapChild>) {
    forall i :: 0 <= i < |cs| ==> Intact(cs[i].snap)
  }

  ghost predicate StorableAll(ts: seq<TreeChild>) {
    forall i :: 0 <= i < |ts| ==> |ts[i].name| < TWO_TO_64 && Storable(ts[i].node)
  }

  /* ---- A fetcher that knows more describes the same intact snapshots ---- */

  ghost predicate Extends(f: Fetcher, g: Fetcher) {
    forall loc :: f(loc).Ok? ==> g(loc) == f(loc)
  }

  ghost predicate ExtendsId(f: bytes -> Result<bytes>, g: bytes -> Result<bytes>) {
    forall id :: f(id).Ok? ==> g(id) == f(id)
  }

  lemma {:induction false} JoinedExtends(f: Fetcher, g: Fetcher, locs: seq<BlobLoc>)
    requires Extends(f, g) && FetchJoined(f, locs).Ok?
    ensures FetchJoined(g, locs) == FetchJoined(f, locs)
  {
    if locs != [] {
      JoinedExtends(f, g, locs[..|locs| - 1]);
    }
  }

  lemma {:induction false} DescribesExtends(
    f: Fetcher, g: Fetcher, byId: bytes -> Result<bytes>, byId': bytes -> Result<bytes>, n: Node, s: Snap)
    requires Extends(f, g) && ExtendsId(byId, byId') && Describes(f, byId, n, s) && Intact(s)
    ensures Describes(g, byId', n, s)
    decreases s
  {
    hide ParseTree;
    match s
    case SFile(_, _, _, _) => JoinedExtends(f, g, n.dataBlobLocs);
    case SDir(cs) =>
      assert DescribesTree(f, byId, n.treeBlobLoc, cs);
      DescribesAllExtends(f, g, byId, byId', ParseTree(f(n.treeBlobLoc).value).value.children, cs);
      assert DescribesTree(g, byId', n.treeBlobLoc, cs);
  }

  lemma {:induction false} DescribesAllExtends(
    f: Fetcher, g: Fetcher, byId: bytes -> Result<bytes>, byId': bytes -> Result<bytes>,
    ts: seq<TreeChild>, cs: seq<SnapChild>)
    requires Extends(f, g) && ExtendsId(byId, byId') && DescribesAll(f, byId, ts, cs) && AllIntact(cs)
    ensures DescribesAll(g, byId', ts, cs)
    decreases cs, 0
  {
    forall i | 0 <= i < |cs| ensures Describes(g, byId', ts[i].node, cs[i].snap) {
      DescribesExtends(f, g, byId, byId', ts[i].node, cs[i].snap);
    }
  }

  lemma RecallGrows(cu: bytes, o: Origin, o': Origin)
    requires Grows(o, o')
    ensures Extends(Recall(cu, o), Recall(cu, o')) && ExtendsId(RecallId(o), RecallId(o'))
  {}

  lemma JoinedGrows(cu: bytes, o: Origin, o': Origin, locs: seq<BlobLoc>)
    requires Grows(o, o') && FetchJoined(Recall(cu, o), locs).Ok?
    ensures FetchJoined(Recall(cu, o'), locs) == FetchJoined(Recall(cu, o), locs)
  {
    RecallGrows(cu, o, o');
    JoinedExtends(Recall(cu, o), Recall(cu, o'), locs);
  }

  lemma RecordsGrows(cu: bytes, o: Origin, o': Origin, n: Node, s: Snap)
    requires Grows(o, o') && Records(cu, o, n, s) && Intact(s)
    ensures Records(cu, o', n, s)
  {
    hide Describes;
    RecallGrows(cu, o, o');
    DescribesExtends(Recall(cu, o), Recall(cu, o'), RecallId(o), RecallId(o'), n, s);
  }

  lemma RecordsAllGrows(cu: bytes, o: Origin, o': Origin, ts: seq<TreeChild>, cs: seq<SnapChild>)
    requires Grows(o, o') && RecordsAll(cu, o, ts, cs) && AllIntact(cs)
    ensures RecordsAll(cu, o', ts, cs)
  {
    hide Describes;
    RecallGrows(cu, o, o');
    DescribesAllExtends(Recall(cu, o), Recall(cu, o'), RecallId(o), RecallId(o'), ts, cs);
  }

  lemma {:induction false} JoinedStored(cu: bytes, o: Origin, locs: seq<BlobLoc>)
    requires FetchJoined(Recall(cu, o), locs).Ok?
    ensures FetchJoined(Recall(cu, o), TreeRoundTrip.StoredLocs(locs)) == FetchJoined(Recall(cu, o), locs)
  {
    if locs != [] {
      var r := TreeRoundTrip.StoredLocs(locs);
      assert r == TreeRoundTrip.StoredLocs(locs[..|locs| - 1]) + [TreeRoundTrip.StoredLoc(locs[|locs| - 1])];
      assert r[..|r| - 1] == TreeRoundTrip.StoredLocs(locs[..|locs| - 1]);
      JoinedStored(cu, o, locs[..|locs| - 1]);
    }
  }

  lemma StoredAddress(cu: bytes, loc: BlobLoc)
    requires WellAddressed(cu, loc)
    ensures WellAddressed(cu, TreeRoundTrip.StoredLoc(loc))
    ensures TreeRoundTrip.StoredLoc(loc).blobIdentifier == loc.blobIdentifier
  {
    hide PathForBlob;
  }

  /** A node read back from a tree describes what the node written into it described. */
  lemma RecordsStored(cu: bytes, o: Origin, n: Node, version: nat, s: Snap)
    requires Storable(n) && Records(cu, o, n, s) && Intact(s)
    ensures Records(cu, o, TreeRoundTrip.StoredNode(n, version), s)
  {
    if n.FileNode? {
      JoinedStored(cu, o, n.dataBlobLocs);
    } else {
      assert DescribesTree(Recall(cu, o), RecallId(o), n.treeBlobLoc, s.children);
      StoredAddress(cu, n.treeBlobLoc);
      assert DescribesTree(Recall(cu, o), RecallId(o), TreeRoundTrip.StoredLoc(n.treeBlobLoc), s.children);
    }
  }

  /** A directory's own node, once its serialized tree is among the recalled plaintexts. */
  lemma TreeNodeRecords(cu: bytes, o: Origin, n: Node, t: Tree, version: nat, cs: seq<SnapChild>)
    requires n.TreeNode? && version < TWO_TO_32 && |t.children| < TWO_TO_64
    requires StorableAll(t.children) && RecordsAll(cu, o, t.children, cs)
    requires AllIntact(cs)
    requires Recall(cu, o)(n.treeBlobLoc) == Ok(WriteTree(t, version))
    ensures Records(cu, o, n, SDir(cs))
  {
    hide WriteTree, ParseTree, TreeRoundTrip.StoredNode;
    var w := WriteTree(t, version);
    assert w + [] == w;
    assert TreeRoundTrip.Sized(t);
    TreeRoundTrip.ParseInvertsWrite(t, version, []);
    var ts := TreeRoundTrip.StoredChildren(t.children, version);
    forall i | 0 <= i < |cs| ensures ts[i].name == cs[i].name && Records(cu, o, ts[i].node, cs[i].snap) {
      RecordsStored(cu, o, t.children[i].node, version, cs[i].snap);
    }
    assert RecordsAll(cu, o, ts, cs);
    assert DescribesTree(Recall(cu, o), RecallId(o), n.treeBlobLoc, cs);
  }

  /* ---- What Record yields ---- */

  ghost predicate FileLinks(links: Links) { forall k :: k in links ==> links[k].SFile? }

  lemma {:induction false} RecordIntact(e: Entry, links: Links)
    requires FileLinks(links)
    ensures FileLinks(Record(e, links).1)
    ensures Record(e, links).0.Some? ==> Intact(Record(e, links).0.value)
    decreases e
  {
    if e.Dir? {
      RecordAllIntact(e.entries, links);
    }
  }

  lemma {:induction false} RecordAllIntact(es: seq<Named>, links: Links)
    requires FileLinks(links)
    ensures FileLinks(RecordAll(es, links).1)
    ensures AllIntact(RecordAll(es, links).0)
    ensures |RecordAll(es, links).0| <= |es|
    decreases es
  {
    if es != [] {
      RecordAllIntact(es[..|es| - 1], links);
      RecordIntact(es[|es| - 1].entry, RecordAll(es[..|es| - 1], links).1);
    }
  }
}
