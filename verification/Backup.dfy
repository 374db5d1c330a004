/** The backup writer in standalone-object mode: deduplicated blobs, the inode cache, and the walk. */
module Backup {
  import opened Wrappers
  import opened Bytes
  import opened TreeFormat
  import TreeRoundTrip
  import opened PathFilter
  import opened Snapshot
  import opened BlobStore
  import opened Recording
  import C = Chunker

  /** What _walk returns for an entry that is not skipped. */
  datatype Walked = Walked(node: Node, itemSize: nat, files: nat)

  function FileMeta(st: Stat, size: nat): Meta {
    Meta(1, None, [], size, 1, st.times.(createSec := 0, createNsec := 0), st.username, st.groupName, false,
         MacStat(0, st.ino, st.mode, st.nlink, st.uid, st.gid, 0, 0), 0, 0, false, [], 0, 0)
  }

  function DirMeta(st: Stat, size: nat, files: nat): Meta {
    Meta(1, None, [], size, files, st.times.(createSec := 0, createNsec := 0), None, None, false,
         MacStat(0, st.ino, st.mode, 1, st.uid, st.gid, 0, 0), 0, 0, false, [], 0, 0)
  }

  /** The mode, owner, inode and times of a node are those of the entry. */
  predicate KeepsStat(m: Meta, st: Stat) {
    && (m.mac.mode, m.mac.uid, m.mac.gid, m.mac.ino) == (st.mode, st.uid, st.gid, st.ino)
    && (m.times.mtimeSec, m.times.mtimeNsec) == (st.times.mtimeSec, st.times.mtimeNsec)
    && (m.times.ctimeSec, m.times.ctimeNsec) == (st.times.ctimeSec, st.times.ctimeNsec)
    && m.xattrsBlobLocs == [] && m.aclBlobLoc.None?
  }

  function SumLengths(ids: seq<bytes>, written: map<bytes, BlobLoc>): int {
    if ids == [] then 0
    else
      var last := ids[|ids| - 1];
      SumLengths(ids[..|ids| - 1], written) + if last in written then written[last].length else 0
  }

  function SumPlain(ids: seq<bytes>, o: Origin): int {
    if ids == [] then 0
    else
      var last := ids[|ids| - 1];
      SumPlain(ids[..|ids| - 1], o) + if last in o then |o[last]| else 0
  }

  lemma {:induction false} SumsIgnoreNewKey(ids: seq<bytes>, w: map<bytes, BlobLoc>, o: Origin, id: bytes, l: BlobLoc,
      p: bytes)
    requires id !in ids
    ensures SumLengths(ids, w[id := l]) == SumLengths(ids, w) && SumPlain(ids, o[id := p]) == SumPlain(ids, o)
  {
    if ids != [] {
      SumsIgnoreNewKey(ids[..|ids| - 1], w, o, id, l, p);
    }
  }

  datatype Config = Config(
    crypto: Crypto, computer: bytes, encrypted: bool, treeVersion: nat, chunker: Option<C.Config>)
  {
    ghost predicate Valid() {
      && crypto.Lawful() && treeVersion < TWO_TO_32 && |computer| < TWO_TO_32
      && (chunker.Some? ==> chunker.value.Valid())
    }

    /** No two plaintexts share an identifier, and none is misread as sealed. */
    ghost predicate Sound(seen: set<bytes>) {
      && (forall p, q :: p in seen && q in seen && crypto.blobId(p) == crypto.blobId(q) ==> p == q)
      && (encrypted || forall p :: p in seen ==> |p| != ARQO_LENGTH)
    }

    ghost predicate IsLocOf(loc: BlobLoc, id: bytes) {
      |id| == BLOB_ID_LENGTH && loc.length >= 0 && loc == FileBlobLoc(computer, id, loc.length)
    }

    /** A written blob's loc resolves to the plaintext it was written for. */
    ghost predicate Resolves(store: Store, loc: BlobLoc, id: bytes, plain: bytes) {
      && crypto.blobId(plain) == id && IsLocOf(loc, id)
      && (encrypted || |plain| != ARQO_LENGTH ==> Fetch(crypto, store, loc) == Ok(plain))
    }
  }

  ghost predicate BlobsResolve(
    cfg: Config, store: Store, written: map<bytes, BlobLoc>, o: Origin, seen: set<bytes>)
  {
    && written.Keys == o.Keys
    && forall id :: id in o ==> o[id] in seen && cfg.Resolves(store, written[id], id, o[id])
  }

  /** Whatever the store held at the start is there still, unless one of our blobs took its place. */
  ghost predicate KeepsObjects(initial: Store, store: Store, written: map<bytes, BlobLoc>) {
    forall path :: path in initial ==>
      path in store && (store[path] == initial[path] || IsBlobPath(written, path))
  }

  ghost predicate IsBlobPath(written: map<bytes, BlobLoc>, path: bytes) {
    exists id :: id in written && written[id].relativePath == path
  }

  lemma KeepsAdd(initial: Store, store: Store, written: map<bytes, BlobLoc>, id: bytes, loc: BlobLoc, arqo: bytes)
    requires KeepsObjects(initial, store, written) && id !in written
    ensures KeepsObjects(initial, store[loc.relativePath := arqo], written[id := loc])
  {
    var w := written[id := loc];
    assert id in w && w[id].relativePath == loc.relativePath;
    forall path | IsBlobPath(written, path) ensures IsBlobPath(w, path) {
      var k :| k in written && written[k].relativePath == path;
      assert k in w && w[k].relativePath == path;
    }
  }

  /** A file node counts itself and its bytes. */
  predicate FileTotals(n: Node, size: int) {
    n.meta.containedFilesCount == 1 && n.meta.itemSize == size >= 0
  }

  /** A node's own containedFilesCount and itemSize are the files and bytes of its snapshot. */
  ghost predicate Totalled(n: Node, s: Snap) {
    var t := Count(s, [], KeepAll);
    n.meta.containedFilesCount == t.files && n.meta.itemSize == t.bytes
  }

  ghost predicate TotalledAll(ts: seq<TreeChild>, cs: seq<SnapChild>) {
    |ts| == |cs| && forall i :: 0 <= i < |cs| ==> Totalled(ts[i].node, cs[i].snap)
  }

  /** The node was written for this entry; a hard link may share the node of an earlier path. */
  predicate WrittenFor(n: Node, e: Entry) {
    match e
    case File(st, content) => Linked(st.nlink, st.ino) || FileWrittenFor(n, st, |content|)
    case Dir(st, _) => n.TreeNode? && KeepsStat(n.meta, st)
    case Skipped => false
  }

  predicate FileWrittenFor(n: Node, st: Stat, size: nat) {
    && n.FileNode? && KeepsStat(n.meta, st) && n.meta.itemSize == size
    && (n.meta.mac.nlink, n.meta.username, n.meta.groupName) == (st.nlink as int, st.username, st.groupName)
  }

  /** The children are those of the entries that are not skipped, in order, each under its name. */
  ghost predicate ListsEntries(children: seq<TreeChild>, es: seq<Named>) {
    if es == [] then children == []
    else
      var (init, last, k) := (es[..|es| - 1], es[|es| - 1], |children| - 1);
      if last.entry.Skipped? then ListsEntries(children, init)
      else children != [] && children[k].name == last.name && WrittenFor(children[k].node, last.entry)
           && ListsEntries(children[..k], init)
  }

  lemma NoneListed(es: seq<Named>)
    ensures ListsEntries([], es[..0])
  {}

  lemma SkipsOn(children: seq<TreeChild>, es: seq<Named>, i: nat)
    requires i < |es| && ListsEntries(children, es[..i]) && es[i].entry.Skipped?
    ensures ListsEntries(children, es[..i + 1])
  {
    assert es[..i + 1][..i] == es[..i];
  }

  lemma ListsOn(children: seq<TreeChild>, es: seq<Named>, i: nat, n: Node)
    requires i < |es| && ListsEntries(children, es[..i]) && WrittenFor(n, es[i].entry)
    ensures ListsEntries(children + [TreeChild(es[i].name, n)], es[..i + 1])
  {
    assert es[..i + 1][..i] == es[..i];
    assert (children + [TreeChild(es[i].name, n)])[..|children|] == children;
  }

  /** The tree blob of a directory lists its entries, with their metadata, and each child with its own totals. */
  ghost predicate ListsChildren(o: Origin, id: bytes, version: nat, es: seq<Named>, cs: seq<SnapChild>) {
    && id in o
    && exists children :: TotalledAll(children, cs) && ListsEntries(children, es)
        && o[id] == WriteTree(Tree(children, version), version)
  }

  /** How many directories a snapshot holds. */
  function DirCount(s: Snap): nat
    decreases s
  {
    if s.SDir? then 1 + DirCountAll(s.children) else 0
  }

  function DirCountAll(cs: seq<SnapChild>): nat
    decreases cs
  {
    if cs == [] then 0 else DirCountAll(cs[..|cs| - 1]) + DirCount(cs[|cs| - 1].snap)
  }

  ghost predicate LinksDescribe(cu: bytes, sound: bool, o: Origin, inodes: map<(int, int), Node>, links: Links) {
    && inodes.Keys == links.Keys && FileLinks(links)
    && (forall k :: k in links ==> Storable(inodes[k]) && FileTotals(inodes[k], links[k].size))
    && (sound ==> forall k :: k in links ==> Records(cu, o, inodes[k], links[k]))
  }

  /** blob_ids lists each written blob once, and the byte counters are its sums. */
  ghost predicate Accounted(
    ids: seq<bytes>, written: map<bytes, BlobLoc>, o: Origin, bytesPlaintext: int, bytesOnDisk: int)
  {
    && (forall i, j :: 0 <= i < j < |ids| ==> ids[i] != ids[j])
    && (forall id :: id in ids <==> id in written)
    && bytesOnDisk == SumLengths(ids, written) && bytesPlaintext == SumPlain(ids, o)
  }

  lemma SoundShrinks(cfg: Config, seen: set<bytes>, seen': set<bytes>)
    requires seen <= seen' && cfg.Sound(seen')
    ensures cfg.Sound(seen)
  {}

  /** Storing one new object leaves every other written blob's object in place. */
  lemma ResolvesElsewhere(cfg: Config, store: Store, id: bytes, arqo: bytes, loc: BlobLoc, id': bytes, p: bytes)
    requires |id| == BLOB_ID_LENGTH && id != id' && cfg.Resolves(store, loc, id', p)
    ensures cfg.Resolves(store[PathForBlob(cfg.computer, id) := arqo], loc, id', p)
  {
    hide PathForBlob, Lz4Unwrap;
    if PathForBlob(cfg.computer, id) == loc.relativePath {
      PathsDiffer(cfg.computer, id, id');
    }
  }

  lemma NewResolves(cfg: Config, store: Store, plain: bytes, randomness: nat, arqo: bytes)
    requires cfg.Valid() && |plain| < TWO_TO_32
    requires arqo == Object(cfg.crypto, cfg.encrypted, Lz4Wrap(cfg.crypto, plain).value, randomness)
    ensures var id := cfg.crypto.blobId(plain);
            && |id| == BLOB_ID_LENGTH
            && var loc := FileBlobLoc(cfg.computer, id, |arqo|);
               cfg.Resolves(store[loc.relativePath := arqo], loc, id, plain)
  {
    hide PathForBlob, Fetch, Object, Lz4Wrap;
    var id := cfg.crypto.blobId(plain);
    var loc := FileBlobLoc(cfg.computer, id, |arqo|);
    FetchInvertsWrite(cfg.crypto, cfg.encrypted, plain, randomness, store[loc.relativePath := arqo], loc);
  }

  lemma ResolveAdd(
    cfg: Config, store: Store, written: map<bytes, BlobLoc>, o: Origin, seen: set<bytes>,
    plain: bytes, randomness: nat, arqo: bytes, id: bytes)
    requires cfg.Valid() && BlobsResolve(cfg, store, written, o, seen)
    requires |plain| < TWO_TO_32 && id == cfg.crypto.blobId(plain) && |id| == BLOB_ID_LENGTH && id !in written
    requires arqo == Object(cfg.crypto, cfg.encrypted, Lz4Wrap(cfg.crypto, plain).value, randomness)
    ensures var loc := FileBlobLoc(cfg.computer, id, |arqo|);
            BlobsResolve(cfg, store[loc.relativePath := arqo], written[id := loc], o[id := plain], seen + {plain})
  {
    hide PathForBlob, Object, Lz4Wrap, cfg.Valid, cfg.Resolves;
    NewResolves(cfg, store, plain, randomness, arqo);
    var loc := FileBlobLoc(cfg.computer, id, |arqo|);
    forall id' | id' in o
      ensures cfg.Resolves(store[loc.relativePath := arqo], written[id'], id', o[id'])
    {
      ResolvesElsewhere(cfg, store, id, arqo, written[id'], id', o[id']);
    }
  }

  lemma IdLength(cfg: Config, plain: bytes)
    requires cfg.Valid()
    ensures |cfg.crypto.blobId(plain)| == BLOB_ID_LENGTH
  {}

  lemma CachedBlob(
    cfg: Config, store: Store, written: map<bytes, BlobLoc>, o: Origin, seen: set<bytes>, plain: bytes)
    requires BlobsResolve(cfg, store, written, o, seen) && plain in seen
    ensures var id := cfg.crypto.blobId(plain);
            && (id in written <==> id in o)
            && (id in o ==>
                written[id].blobIdentifier == id && cfg.IsLocOf(written[id], id)
                && (cfg.Sound(seen) ==> o[id] == plain))
  {
    hide Fetch;
  }

  lemma LocIsSized(cfg: Config, loc: BlobLoc, id: bytes)
    requires cfg.Valid() && cfg.IsLocOf(loc, id)
    ensures TreeRoundTrip.SizedLoc(loc) && WellAddressed(cfg.computer, loc) && loc.blobIdentifier == id
  {}

  lemma LinksAdd(
    cu: bytes, sound: bool, o: Origin, inodes: map<(int, int), Node>, links: Links, k: (int, int), node: Node, s: Snap)
    requires LinksDescribe(cu, sound, o, inodes, links)
    requires s.SFile? && Storable(node) && FileTotals(node, s.size) && (sound ==> Records(cu, o, node, s))
    ensures LinksDescribe(cu, sound, o, inodes[k := node], links[k := s])
  {
    hide Storable, Records;
  }

  lemma ResolveSeen(cfg: Config, store: Store, written: map<bytes, BlobLoc>, o: Origin, seen: set<bytes>, plain: bytes)
    requires BlobsResolve(cfg, store, written, o, seen)
    ensures BlobsResolve(cfg, store, written, o, seen + {plain})
  {
    hide cfg.Resolves;
  }

  lemma LinksGrow(cu: bytes, sound: bool, sound': bool, o: Origin, o': Origin, inodes: map<(int, int), Node>,
      links: Links)
    requires LinksDescribe(cu, sound, o, inodes, links) && Grows(o, o') && (sound' ==> sound)
    ensures LinksDescribe(cu, sound', o', inodes, links)
  {
    hide Storable;
    forall k | sound' && k in links ensures Records(cu, o', inodes[k], links[k]) {
      RecordsGrows(cu, o, o', inodes[k], links[k]);
    }
  }

  lemma AccountAdd(
    ids: seq<bytes>, written: map<bytes, BlobLoc>, o: Origin, bp: int, bd: int, id: bytes, loc: BlobLoc, plain: bytes)
    requires Accounted(ids, written, o, bp, bd) && id !in written && id !in o
    ensures Accounted(ids + [id], written[id := loc], o[id := plain], bp + |plain|, bd + loc.length)
  {
    SumsIgnoreNewKey(ids, written, o, id, loc, plain);
    assert (ids + [id])[..|ids|] == ids;
    assert forall k :: k in ids + [id] <==> k in ids || k == id;
  }

  lemma FileNodeStorable(st: Stat, content: bytes, locs: seq<BlobLoc>)
    requires ValidStat(st) && |content| < TWO_TO_63 && TreeRoundTrip.SizedLocs(locs)
    ensures var n := FileNode(locs, FileMeta(st, |content|));
            Storable(n) && FileWrittenFor(n, st, |content|) && FileTotals(n, |content|)
  {}

  lemma FileNodeRecords(cu: bytes, o: Origin, st: Stat, content: bytes, locs: seq<BlobLoc>)
    ensures FetchJoined(Recall(cu, o), locs) == Ok(content)
        ==> Records(cu, o, FileNode(locs, FileMeta(st, |content|)), SFile(content, |content|, st.ino, st.nlink))
  {}

  lemma JoinedNothing(cu: bytes, o: Origin, pieces: seq<bytes>)
    ensures FetchJoined(Recall(cu, o), []) == Ok(Join(pieces[..0]))
  {}

  lemma JoinedAppend(cu: bytes, o: Origin, locs: seq<BlobLoc>, loc: BlobLoc, pieces: seq<bytes>, i: nat)
    requires i < |pieces| && FetchJoined(Recall(cu, o), locs) == Ok(Join(pieces[..i]))
    requires WellAddressed(cu, loc) && loc.blobIdentifier in o && o[loc.blobIdentifier] == pieces[i]
    ensures FetchJoined(Recall(cu, o), locs + [loc]) == Ok(Join(pieces[..i + 1]))
  {
    assert (locs + [loc])[..|locs|] == locs;
    assert pieces[..i + 1] == pieces[..i] + [pieces[i]];
    JoinAppend(pieces[..i], pieces[i]);
  }

  lemma StartRecording(cu: bytes, o: Origin, es: seq<Named>, links: Links)
    ensures RecordsAll(cu, o, [], []) && RecordAll(es[..0], links) == ([], links)
    ensures CountAll([], [], KeepAll) == Totals(0, 0) && DirCountAll([]) == 0
  {}

  lemma RecordNext(es: seq<Named>, i: nat, links: Links, cs: seq<SnapChild>, links1: Links)
    requires i < |es| && (cs, links1) == RecordAll(es[..i], links)
    ensures var (s, links2) := Record(es[i].entry, links1);
            RecordAll(es[..i + 1], links)
              == (if s.Some? then cs + [SnapChild(es[i].name, s.value)] else cs, links2)
  {
    hide Record;
    assert es[..i + 1][..i] == es[..i];
  }

  lemma RecordsAllNext(cu: bytes, o: Origin, ts: seq<TreeChild>, cs: seq<SnapChild>, name: bytes, n: Node, s: Snap)
    requires RecordsAll(cu, o, ts, cs) && Records(cu, o, n, s)
    ensures RecordsAll(cu, o, ts + [TreeChild(name, n)], cs + [SnapChild(name, s)])
  {}

  /** The locs name the pieces in order, each by its identifier. */
  predicate NamesPieces(locs: seq<BlobLoc>, pieces: seq<bytes>, blobId: bytes -> bytes) {
    |locs| == |pieces| && forall i :: 0 <= i < |locs| ==> locs[i].blobIdentifier == blobId(pieces[i])
  }

  lemma NamesNothing(pieces: seq<bytes>, blobId: bytes -> bytes)
    ensures NamesPieces([], pieces[..0], blobId)
  {}

  lemma NamesNext(locs: seq<BlobLoc>, pieces: seq<bytes>, i: nat, loc: BlobLoc, blobId: bytes -> bytes)
    requires i < |pieces| && NamesPieces(locs, pieces[..i], blobId) && loc.blobIdentifier == blobId(pieces[i])
    ensures NamesPieces(locs + [loc], pieces[..i + 1], blobId)
  {}

  lemma JoinOne(content: bytes)
    ensures Join([content]) == content
  {
    assert [content][1..] == [];
  }

  lemma DirNodeStorable(cfg: Config, loc: BlobLoc, id: bytes, st: Stat, size: nat, files: nat)
    requires cfg.Valid() && cfg.IsLocOf(loc, id)
    ensures Storable(TreeNode(loc, DirMeta(st, size, files)))
  {
    LocIsSized(cfg, loc, id);
  }

  /** The part of the writer's state that only grows. */
  datatype History = History(
    seen: set<bytes>, origin: Origin, written: map<bytes, BlobLoc>, store: Store)

  ghost predicate Growth(a: History, b: History) {
    && a.seen <= b.seen && Grows(a.origin, b.origin) && Grows(a.written, b.written)
    && a.store.Keys <= b.store.Keys
  }

  lemma GrowthTransitive(a: History, b: History, c: History)
    requires Growth(a, b) && Growth(b, c)
    ensures Growth(a, c)
  {}

  lemma GrowthStart(a: History)
    ensures Growth(a, a)
  {}

  lemma GrowthByPlain(a: History, plain: bytes)
    ensures Growth(a, a.(seen := a.seen + {plain}))
  {}

  lemma GrowthByBlob(a: History, plain: bytes, id: bytes, loc: BlobLoc, path: bytes, arqo: bytes)
    requires id !in a.origin && id !in a.written
    ensures Growth(a, History(a.seen + {plain}, a.origin[id := plain], a.written[id := loc], a.store[path := arqo]))
  {}

  lemma StillGrows(o: Origin)
    ensures Grows(o, o)
  {}

  lemma TooLong(c: Crypto, plain: bytes)
    ensures Lz4Wrap(c, plain).Err? <==> |plain| >= TWO_TO_32
  {}

  lemma OriginGrows(o: Origin, id: bytes, plain: bytes)
    requires id !in o
    ensures Grows(o, o[id := plain])
  {}

  lemma NewLoc(cfg: Config, id: bytes, length: nat)
    requires |id| == BLOB_ID_LENGTH
    ensures cfg.IsLocOf(FileBlobLoc(cfg.computer, id, length), id)
    ensures FileBlobLoc(cfg.computer, id, length).length == length
    ensures FileBlobLoc(cfg.computer, id, length).blobIdentifier == id
  {}

  /** Everything Valid() says, for the state after one new object is stored. */
  lemma ObjectStored(
    cfg: Config, h: History, inodes: map<(int, int), Node>, links: Links, ids: seq<bytes>, bp: int, bd: int,
    id: bytes, plain: bytes, randomness: nat, arqo: bytes, loc: BlobLoc)
    requires cfg.Valid() && BlobsResolve(cfg, h.store, h.written, h.origin, h.seen)
    requires LinksDescribe(cfg.computer, cfg.Sound(h.seen), h.origin, inodes, links)
        && Accounted(ids, h.written, h.origin, bp, bd)
    requires plain in h.seen && id == cfg.crypto.blobId(plain) && id !in h.written && id !in h.origin
    requires |id| == BLOB_ID_LENGTH && |plain| < TWO_TO_32
    requires arqo == Object(cfg.crypto, cfg.encrypted, Lz4Wrap(cfg.crypto, plain).value, randomness)
    requires loc == FileBlobLoc(cfg.computer, id, |arqo|)
    ensures loc.blobIdentifier == id && cfg.IsLocOf(loc, id)
    ensures var s, w, o := h.store[loc.relativePath := arqo], h.written[id := loc], h.origin[id := plain];
            && BlobsResolve(cfg, s, w, o, h.seen) && LinksDescribe(cfg.computer, cfg.Sound(h.seen), o, inodes, links)
            && Accounted(ids + [id], w, o, bp + |plain|, bd + |arqo|)
            && Growth(h, History(h.seen, o, w, s))
  {
    hide cfg.Valid, BlobsResolve, KeepsObjects, LinksDescribe, Accounted, Object, Lz4Wrap, FileBlobLoc, cfg.IsLocOf,
         cfg.Sound, Growth, Grows;
    NewLoc(cfg, id, |arqo|);
    assert h.seen + {plain} == h.seen;
    ResolveAdd(cfg, h.store, h.written, h.origin, h.seen, plain, randomness, arqo, id);
    AccountAdd(ids, h.written, h.origin, bp, bd, id, loc, plain);
    OriginGrows(h.origin, id, plain);
    LinksGrow(cfg.computer, cfg.Sound(h.seen), cfg.Sound(h.seen), h.origin, h.origin[id := plain], inodes, links);
    GrowthByBlob(h, plain, id, loc, loc.relativePath, arqo);
  }

  lemma GrowthFacts(a: History, b: History)
    requires Growth(a, b)
    ensures a.seen <= b.seen && Grows(a.origin, b.origin)
  {}

  /** Children recorded so far stay recorded as blobs are added. */
  lemma StillRecords(cfg: Config, a: History, b: History, children: seq<TreeChild>, cs: seq<SnapChild>)
    requires Growth(a, b) && cfg.Sound(b.seen) && AllIntact(cs)
    requires cfg.Sound(a.seen) ==> RecordsAll(cfg.computer, a.origin, children, cs)
    ensures cfg.Sound(a.seen) && RecordsAll(cfg.computer, b.origin, children, cs)
  {
    hide RecordsAll;
    SoundShrinks(cfg, a.seen, b.seen);
    RecordsAllGrows(cfg.computer, a.origin, b.origin, children, cs);
  }

  class Backup {
    const cfg: Config

    var store: Store
    var written: map<bytes, BlobLoc>
    var inodes: map<(int, int), Node>
    var blobIds: seq<bytes>
    var bytesPlaintext: int
    var bytesOnDisk: int
    var filesWritten: nat
    var treesWritten: nat
    /** Stands for the random material of the next sealed object. */
    var entropy: nat

    /** Every plaintext handed to WriteBlob, and the first one under each identifier. */
    ghost var seen: set<bytes>
    ghost var origin: Origin
    /** The snapshot each cached node describes. */
    ghost var links: Links
    /** The store as it was handed over. */
    ghost const initial: Store

    ghost predicate Sound()
      reads `seen
    {
      cfg.Sound(seen)
    }

    ghost predicate Valid()
      reads `seen, `origin, `links, `store, `written, `inodes, `blobIds, `bytesPlaintext, `bytesOnDisk
      ensures Valid() ==> cfg.Valid() && cfg.treeVersion < TWO_TO_32 && FileLinks(links)
    {
      && cfg.Valid() && BlobsResolve(cfg, store, written, origin, seen) && KeepsObjects(initial, store, written)
      && LinksDescribe(cfg.computer, Sound(), origin, inodes, links)
      && Accounted(blobIds, written, origin, bytesPlaintext, bytesOnDisk)
    }

    ghost function Now(): History
      reads `seen, `origin, `written, `store
    {
      History(seen, origin, written, store)
    }

    constructor (cfg: Config, store: Store)
      requires cfg.Valid()
      ensures Valid() && this.cfg == cfg && this.store == store && initial == store
      ensures seen == {} && origin == map[] && links == map[] && blobIds == []
      ensures filesWritten == treesWritten == entropy == 0
    {
      this.cfg, this.store, this.initial := cfg, store, store;
      written, inodes, blobIds := map[], map[], [];
      bytesPlaintext, bytesOnDisk, filesWritten, treesWritten, entropy := 0, 0, 0, 0, 0;
      seen, origin, links := {}, map[], map[];
      new;
      hide cfg.Valid, cfg.Resolves;
    }

    /** _write_blob: the cached loc of an identifier already written, or a new object and its loc. */
    method WriteBlob(plain: bytes) returns (r: Result<BlobLoc>)
      requires Valid()
      modifies this
      ensures Valid() && Growth(old(Now()), Now()) && seen == old(seen) + {plain}
      ensures inodes == old(inodes) && links == old(links)
      ensures filesWritten == old(filesWritten) && treesWritten == old(treesWritten)
      ensures r.Err? <==> cfg.crypto.blobId(plain) !in old(written) && |plain| >= TWO_TO_32
      ensures r.Err? ==> store == old(store) && blobIds == old(blobIds)
      ensures r.Ok? ==> var id := cfg.crypto.blobId(plain);
                && id in written && id in origin && r.value == written[id]
                && r.value.blobIdentifier == id && cfg.IsLocOf(r.value, id)
                && blobIds == (if id in old(written) then old(blobIds) else old(blobIds) + [id])
                && (id in old(written) ==> store == old(store) && written == old(written) && entropy == old(entropy))
                && (id !in old(written) ==>
                      var arqo := Object(cfg.crypto, cfg.encrypted, Lz4Wrap(cfg.crypto, plain).value, old(entropy));
                      && entropy == old(entropy) + 1
                      && r.value == FileBlobLoc(cfg.computer, id, |arqo|) && written == old(written)[id := r.value]
                      && store == old(store)[r.value.relativePath := arqo])
                && (Sound() ==> origin[id] == plain)
    {
      hide cfg.Valid, BlobsResolve, KeepsObjects, LinksDescribe, Accounted, Object, Lz4Wrap, FileBlobLoc, cfg.IsLocOf,
           cfg.Sound, FileLinks, Growth, Grows;
      var id := cfg.crypto.blobId(plain);
      IdLength(cfg, plain);
      ResolveSeen(cfg, store, written, origin, seen, plain);
      seen := seen + {plain};
      GrowthByPlain(old(Now()), plain);
      if Sound() {
        SoundShrinks(cfg, old(seen), seen);
      }
      GrowthStart(old(Now()));
      StillGrows(origin);
      LinksGrow(cfg.computer, old(Sound()), Sound(), origin, origin, inodes, links);
      CachedBlob(cfg, store, written, origin, seen, plain);
      if id in written {
        return Ok(written[id]);
      }
      TooLong(cfg.crypto, plain);
      var wrapped :- Lz4Wrap(cfg.crypto, plain);
      ghost var before := Now();
      var loc := StoreObject(id, plain, wrapped);
      GrowthTransitive(old(Now()), before, Now());
      return Ok(loc);
    }

    /** The uncached half of _write_blob. */
    method StoreObject(id: bytes, plain: bytes, wrapped: bytes) returns (loc: BlobLoc)
      requires Valid() && plain in seen && id == cfg.crypto.blobId(plain) && id !in written && id !in origin
      requires |id| == BLOB_ID_LENGTH && |plain| < TWO_TO_32 && Lz4Wrap(cfg.crypto, plain) == Ok(wrapped)
      modifies this
      ensures Valid() && Growth(old(Now()), Now()) && seen == old(seen)
      ensures inodes == old(inodes) && links == old(links)
      ensures filesWritten == old(filesWritten) && treesWritten == old(treesWritten)
      ensures written == old(written)[id := loc] && origin == old(origin)[id := plain]
      ensures blobIds == old(blobIds) + [id] && loc.blobIdentifier == id && cfg.IsLocOf(loc, id)
      ensures entropy == old(entropy) + 1
      ensures var arqo := Object(cfg.crypto, cfg.encrypted, wrapped, old(entropy));
              loc == FileBlobLoc(cfg.computer, id, |arqo|) && store == old(store)[loc.relativePath := arqo]
    {
      hide cfg.Valid, BlobsResolve, KeepsObjects, LinksDescribe, Accounted, Object, Lz4Wrap, FileBlobLoc, cfg.IsLocOf,
           cfg.Sound, FileLinks, Growth, Grows, PathForBlob, IsBlobPath, cfg.Resolves;
      var arqo := Object(cfg.crypto, cfg.encrypted, wrapped, entropy);
      loc := FileBlobLoc(cfg.computer, id, |arqo|);
      ObjectStored(cfg, Now(), inodes, links, blobIds, bytesPlaintext, bytesOnDisk, id, plain, entropy, arqo, loc);
      KeepsAdd(initial, store, written, id, loc, arqo);
      entropy, store, written := entropy + 1, store[loc.relativePath := arqo], written[id := loc];
      bytesPlaintext, bytesOnDisk, blobIds := bytesPlaintext + |plain|, bytesOnDisk + |arqo|, blobIds + [id];
      origin := origin[id := plain];
    }

    /** The chunker's pieces of a file, or the whole of it as one. */
    method Pieces(content: bytes) returns (pieces: seq<bytes>)
      requires cfg.Valid() && |content| < TWO_TO_63
      ensures Join(pieces) == content && |pieces| < TWO_TO_64
      ensures pieces == if cfg.chunker.Some? && content != [] then C.Chunks(cfg.chunker.value, content, 0)
          else [content]
    {
      hide C.Chunks, Join;
      pieces := [content];
      JoinOne(content);
      if cfg.chunker.Some? && content != [] {
        var buzhash := new C.Buzhash(cfg.chunker.value);
        pieces := buzhash.Chunk(content);
        C.ChunksJoin(cfg.chunker.value, content, 0);
        assert content[0..] == content;
      }
    }

    /** The data blobs of one file, in order. */
    method WriteContent(content: bytes) returns (r: Result<seq<BlobLoc>>)
      requires Valid() && |content| < TWO_TO_63
      modifies this
      ensures Valid() && Growth(old(Now()), Now()) && inodes == old(inodes) && links == old(links)
      ensures r.Ok? ==> |r.value| < TWO_TO_64 && (forall i :: 0 <= i < |r.value| ==> TreeRoundTrip.SizedLoc(r.value[i]))
      ensures r.Ok? && Sound() ==> FetchJoined(Recall(cfg.computer, origin), r.value) == Ok(content)
      ensures filesWritten == old(filesWritten) && treesWritten == old(treesWritten)
      ensures r.Ok? ==> var pieces :=
                  if cfg.chunker.Some? && content != [] then C.Chunks(cfg.chunker.value, content, 0) else [content];
                NamesPieces(r.value, pieces, cfg.crypto.blobId)
    {
      hide Valid, BlobsResolve, LinksDescribe, Accounted, Growth, cfg.Sound, TreeRoundTrip.SizedLoc, cfg.IsLocOf,
           FetchJoined, Join, Recall, FileLinks, cfg.Valid, Grows, WellAddressed, Object, Lz4Wrap, FileBlobLoc,
           C.Chunks, NamesPieces;
      var pieces := Pieces(content);
      var locs: seq<BlobLoc> := [];
      JoinedNothing(cfg.computer, origin, pieces);
      NamesNothing(pieces, cfg.crypto.blobId);
      GrowthStart(Now());
      var i := 0;
      while i < |pieces|
        invariant 0 <= i <= |pieces| && |locs| == i
        invariant Valid() && Growth(old(Now()), Now()) && inodes == old(inodes) && links == old(links)
        invariant filesWritten == old(filesWritten) && treesWritten == old(treesWritten)
        invariant NamesPieces(locs, pieces[..i], cfg.crypto.blobId)
        invariant forall j :: 0 <= j < |locs| ==> TreeRoundTrip.SizedLoc(locs[j])
        invariant Sound() ==> FetchJoined(Recall(cfg.computer, origin), locs) == Ok(Join(pieces[..i]))
      {
        ghost var before := Now();
        var loc := WriteBlob(pieces[i]);
        GrowthTransitive(old(Now()), before, Now());
        if loc.Err? {
          return Err;
        }
        LocIsSized(cfg, loc.value, cfg.crypto.blobId(pieces[i]));
        if Sound() {
          GrowthFacts(before, Now());
          SoundShrinks(cfg, before.seen, seen);
          JoinedGrows(cfg.computer, before.origin, origin, locs);
          JoinedAppend(cfg.computer, origin, locs, loc.value, pieces, i);
        }
        NamesNext(locs, pieces, i, loc.value, cfg.crypto.blobId);
        locs := locs + [loc.value];
        i := i + 1;
      }
      assert pieces[..|pieces|] == pieces;
      return Ok(locs);
    }

    method WalkFile(st: Stat, content: bytes) returns (r: Result<Walked>)
      requires Valid() && ValidEntry(File(st, content))
      modifies this
      ensures Valid() && Growth(old(Now()), Now())
      ensures r.Ok? ==> var (s, l) := Record(File(st, content), old(links));
                && links == l && Storable(r.value.node) && filesWritten == old(filesWritten) + 1
                && (r.value.itemSize, r.value.files) == (s.value.size, 1) && FileTotals(r.value.node, s.value.size)
                && (Sound() ==> Records(cfg.computer, origin, r.value.node, s.value))
      ensures treesWritten == old(treesWritten)
      ensures r.Ok? && !(Linked(st.nlink, st.ino) && (st.dev, st.ino) in old(inodes))
          ==> FileWrittenFor(r.value.node, st, |content|) && r.value.node.meta == FileMeta(st, |content|)
      ensures Linked(st.nlink, st.ino) && (st.dev, st.ino) in old(inodes)
          ==> r.Ok? && r.value.node == old(inodes[(st.dev, st.ino)]) && store == old(store) && written == old(written)
              && inodes == old(inodes)
      ensures r.Ok? && !(Linked(st.nlink, st.ino) && (st.dev, st.ino) in old(inodes))
          ==> inodes == if st.nlink > 1 then old(inodes)[(st.dev, st.ino) := r.value.node] else old(inodes)
    {
      hide BlobsResolve, KeepsObjects, Accounted, Growth, cfg.Sound, cfg.Valid, Records, FileLinks, FileMeta,
           FileWrittenFor, Storable, NamesPieces, C.Chunks, FetchJoined;
      GrowthStart(Now());
      var key := (st.dev, st.ino);
      if Linked(st.nlink, st.ino) && key in inodes {
        filesWritten := filesWritten + 1;
        return Ok(Walked(inodes[key], inodes[key].meta.itemSize, 1));
      }
      var locs :- WriteContent(content);
      var node := FileNode(locs, FileMeta(st, |content|));
      ghost var s := SFile(content, |content|, st.ino, st.nlink);
      FileNodeStorable(st, content, locs);
      FileNodeRecords(cfg.computer, origin, st, content, locs);
      if st.nlink > 1 {
        LinksAdd(cfg.computer, Sound(), origin, inodes, links, key, node, s);
        inodes := inodes[key := node];
        links := links[key := s];
      }
      filesWritten := filesWritten + 1;
      return Ok(Walked(node, |content|, 1));
    }

    /** The loop over a directory's entries: the children written and their totals. */
    method WalkEntries(es: seq<Named>) returns (r: Result<(seq<TreeChild>, nat, nat)>)
      requires Valid() && ValidEntries(es)
      modifies this
      ensures Valid() && Growth(old(Now()), Now())
      ensures r.Ok? ==> var (cs, l) := RecordAll(es, old(links)); var (children, itemSize, contained) := r.value;
                && links == l && StorableAll(children) && |children| < TWO_TO_64
                && Totals(contained, itemSize) == CountAll(cs, [], KeepAll) && TotalledAll(children, cs)
                && ListsEntries(children, es) && filesWritten == old(filesWritten) + contained
                && treesWritten == old(treesWritten) + DirCountAll(cs)
                && (Sound() ==> RecordsAll(cfg.computer, origin, children, cs))
      decreases es, 1
    {
      StartRecording(cfg.computer, origin, es, links);
      NoneListed(es);
      hide Valid, BlobsResolve, LinksDescribe, Accounted, Growth, Grows, cfg.Sound, Records, RecordsAll, Storable,
           Record, RecordAll, CountAll, Totalled, Intact, ValidName, ValidStat, FileLinks, cfg.Valid, ListsEntries,
           WrittenFor, DirCount, DirCountAll;
      GrowthStart(Now());
      var children: seq<TreeChild> := [];
      ghost var cs: seq<SnapChild> := [];
      var itemSize: nat, contained: nat := 0, 0;
      var i := 0;
      while i < |es|
        invariant 0 <= i <= |es| && |children| <= i
        invariant Valid() && Growth(old(Now()), Now())
        invariant (cs, links) == RecordAll(es[..i], old(links))
        invariant StorableAll(children)
        invariant AllIntact(cs)
        invariant Totals(contained, itemSize) == CountAll(cs, [], KeepAll) && TotalledAll(children, cs)
        invariant ListsEntries(children, es[..i]) && filesWritten == old(filesWritten) + contained
        invariant treesWritten == old(treesWritten) + DirCountAll(cs)
        invariant Sound() ==> RecordsAll(cfg.computer, origin, children, cs)
      {
        ghost var before, links0 := Now(), links;
        RecordNext(es, i, old(links), cs, links);
        RecordIntact(es[i].entry, links);
        var walk := Walk(es[i].entry);
        GrowthTransitive(old(Now()), before, Now());
        if walk.Err? {
          return Err;
        }
        if Sound() {
          StillRecords(cfg, before, Now(), children, cs);
        }
        if walk.value.Some? {
          var w := walk.value.value;
          ghost var c := SnapChild(es[i].name, Record(es[i].entry, links0).0.value);
          if Sound() {
            RecordsAllNext(cfg.computer, origin, children, cs, es[i].name, w.node, c.snap);
          }
          ListsOn(children, es, i, w.node);
          children := children + [TreeChild(es[i].name, w.node)];
          itemSize := itemSize + w.itemSize;
          contained := contained + w.files;
          AppendTotals(cs, c);
          cs := cs + [c];
        } else {
          SkipsOn(children, es, i);
        }
        i := i + 1;
      }
      assert es[..|es|] == es;
      return Ok((children, itemSize, contained));
    }

    method WalkDir(st: Stat, es: seq<Named>) returns (r: Result<Walked>)
      requires Valid() && ValidEntry(Dir(st, es))
      modifies this
      ensures Valid() && Growth(old(Now()), Now())
      ensures r.Ok? ==> var (cs, l) := RecordAll(es, old(links));
                && links == l && Storable(r.value.node) && r.value.node.TreeNode?
                && r.value.node.treeBlobLoc.blobIdentifier in written
                && Totals(r.value.files, r.value.itemSize) == CountAll(cs, [], KeepAll)
                && r.value.node.meta == DirMeta(st, r.value.itemSize, r.value.files)
                && (r.value.node.meta.containedFilesCount, r.value.node.meta.itemSize)
                    == (r.value.files, r.value.itemSize)
                && (Sound() ==> Records(cfg.computer, origin, r.value.node, SDir(cs)))
                && KeepsStat(r.value.node.meta, st) && filesWritten == old(filesWritten) + r.value.files
                && treesWritten == old(treesWritten) + 1 + DirCountAll(cs)
                && (Sound() ==>
                      ListsChildren(origin, r.value.node.treeBlobLoc.blobIdentifier, cfg.treeVersion, es, cs))
      decreases es, 2
    {
      hide BlobsResolve, KeepsObjects, LinksDescribe, Accounted, Growth, Grows, cfg.Sound, WriteTree, Records,
           RecordsAll, Storable, StorableAll, RecordAll, WellAddressed, CountAll, AllIntact, ValidName, ValidStat,
           FileLinks, cfg.Valid, cfg.IsLocOf, ValidEntries, ListsEntries, DirCountAll;
      RecordAllIntact(es, links);
      ghost var cs := RecordAll(es, links).0;
      var entries := WalkEntries(es);
      ghost var before := Now();
      GrowthStart(before);
      var found :- entries;
      var (children, itemSize, contained) := found;
      var tree := Tree(children, cfg.treeVersion);
      var treeBytes := WriteTree(tree, cfg.treeVersion);
      var blob := WriteBlob(treeBytes);
      GrowthTransitive(old(Now()), before, Now());
      var loc :- blob;
      treesWritten := treesWritten + 1;
      var node := TreeNode(loc, DirMeta(st, itemSize, contained));
      DirNodeStorable(cfg, loc, cfg.crypto.blobId(treeBytes), st, itemSize, contained);
      if Sound() {
        StillRecords(cfg, before, Now(), children, cs);
        LocIsSized(cfg, loc, cfg.crypto.blobId(treeBytes));
        TreeNodeRecords(cfg.computer, origin, node, tree, cfg.treeVersion, cs);
      }
      return Ok(Walked(node, itemSize, contained));
    }

    /** The walk of a folder by a fresh writer: what it counts is that folder. */
    method WalkRoot(st: Stat, es: seq<Named>) returns (r: Result<Walked>)
      requires Valid() && ValidEntry(Dir(st, es)) && filesWritten == treesWritten == 0 && links == map[]
      modifies this
      ensures Valid()
      ensures r.Ok? ==> var cs := RecordAll(es, map[]).0;
                && r.value.node.TreeNode? && Totals(r.value.files, r.value.itemSize) == CountAll(cs, [], KeepAll)
                && filesWritten == r.value.files && treesWritten == 1 + DirCountAll(cs)
                && r.value.node.meta == DirMeta(st, r.value.itemSize, r.value.files)
                && (r.value.node.meta.containedFilesCount, r.value.node.meta.itemSize)
                    == (r.value.files, r.value.itemSize)
                && KeepsStat(r.value.node.meta, st)
                && (Sound() ==> Records(cfg.computer, origin, r.value.node, SDir(cs)))
      decreases es, 3
    {
      hide Valid, Growth, Records, Storable, RecordAll, CountAll, ValidEntries, DirCountAll, Sound, DirMeta, KeepsStat,
           ValidEntry, ListsChildren;
      r := WalkDir(st, es);
    }

    method Walk(e: Entry) returns (r: Result<Option<Walked>>)
      requires Valid() && ValidEntry(e)
      modifies this
      ensures Valid() && Growth(old(Now()), Now())
      ensures r.Ok? ==> var (s, l) := Record(e, old(links));
                && links == l && r.value.Some? == s.Some?
                && (s.Some? ==>
                      && Storable(r.value.value.node)
                      && Totals(r.value.value.files, r.value.value.itemSize) == Count(s.value, [], KeepAll)
                      && Totalled(r.value.value.node, s.value) && WrittenFor(r.value.value.node, e)
                      && filesWritten == old(filesWritten) + r.value.value.files
                      && treesWritten == old(treesWritten) + DirCount(s.value))
                && (!s.Some? ==>
                      e.Skipped? && filesWritten == old(filesWritten) && treesWritten == old(treesWritten))
                && (s.Some? && Sound() ==> Records(cfg.computer, origin, r.value.value.node, s.value))
      decreases e, 3
    {
      hide Valid, BlobsResolve, LinksDescribe, Accounted, Growth, cfg.Sound, Records, Storable;
      GrowthStart(Now());
      match e
      case Skipped => return Ok(None);
      case File(st, content) =>
        var w :- WalkFile(st, content);
        return Ok(Some(w));
      case Dir(st, es) =>
        var w :- WalkDir(st, es);
        return Ok(Some(w));
    }
  }

  /** Without a filter the totals do not depend on where the walk stands. */
  lemma {:induction false} CountAnywhere(s: Snap, rel: bytes, rel': bytes)
    ensures Count(s, rel, KeepAll) == Count(s, rel', KeepAll)
    decreases s
  {
    if s.SDir? {
      CountAllAnywhere(s.children, rel, rel');
    }
  }

  lemma {:induction false} CountAllAnywhere(cs: seq<SnapChild>, rel: bytes, rel': bytes)
    ensures CountAll(cs, rel, KeepAll) == CountAll(cs, rel', KeepAll)
    decreases cs
  {
    if cs != [] {
      var c := cs[|cs| - 1];
      CountAllAnywhere(cs[..|cs| - 1], rel, rel');
      CountAnywhere(c.snap, ChildRel(rel, c.name), ChildRel(rel', c.name));
    }
  }

  lemma AppendTotals(cs: seq<SnapChild>, c: SnapChild)
    ensures var (a, b) := (CountAll(cs, [], KeepAll), Count(c.snap, [], KeepAll));
            CountAll(cs + [c], [], KeepAll) == Totals(a.files + b.files, a.bytes + b.bytes)
    ensures DirCountAll(cs + [c]) == DirCountAll(cs) + DirCount(c.snap)
  {
    assert (cs + [c])[..|cs|] == cs;
    CountAnywhere(c.snap, ChildRel([], c.name), []);
  }
}
