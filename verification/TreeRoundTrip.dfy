/**
 Reading a written Tree. The writer masks unsigned fields, drops what the version has no room
 for and fills in the version-4 block, so the reader returns the tree's stored form; that is the
 tree itself exactly when every field fits.
*/
module TreeRoundTrip {
  import opened Wrappers
  import opened Bytes
  import opened TreeFormat

  /* ---- Lengths below 2^64, which every Python object has ---- */

  ghost predicate SizedString(s: Option<bytes>) { s.Some? ==> |s.value| < TWO_TO_64 }

  ghost predicate SizedLoc(l: BlobLoc) { |l.blobIdentifier| < TWO_TO_64 && |l.relativePath| < TWO_TO_64 }

  ghost predicate SizedLocs(ls: seq<BlobLoc>) {
    |ls| < TWO_TO_64 && forall i :: 0 <= i < |ls| ==> SizedLoc(ls[i])
  }

  ghost predicate SizedMeta(m: Meta) {
    && (m.aclBlobLoc.Some? ==> SizedLoc(m.aclBlobLoc.value))
    && SizedLocs(m.xattrsBlobLocs) && SizedString(m.username) && SizedString(m.groupName)
  }

  ghost predicate SizedNode(n: Node) {
    && SizedMeta(n.meta)
    && (n.FileNode? ==> SizedLocs(n.dataBlobLocs))
    && (n.TreeNode? ==> SizedLoc(n.treeBlobLoc))
  }

  ghost predicate SizedChildren(cs: seq<TreeChild>) {
    forall i :: 0 <= i < |cs| ==> |cs[i].name| < TWO_TO_64 && SizedNode(cs[i].node)
  }

  ghost predicate Sized(t: Tree) { |t.children| < TWO_TO_64 && SizedChildren(t.children) }

  /* ---- The stored form ---- */

  function StoredLoc(l: BlobLoc): BlobLoc {
    l.(offset := l.offset % TWO_TO_64, length := l.length % TWO_TO_64,
       compressionType := l.compressionType % TWO_TO_32)
  }

  function StoredLocs(ls: seq<BlobLoc>): (r: seq<BlobLoc>)
    ensures |r| == |ls| && forall i :: 0 <= i < |ls| ==> r[i] == StoredLoc(ls[i])
  {
    if ls == [] then [] else StoredLocs(ls[..|ls| - 1]) + [StoredLoc(ls[|ls| - 1])]
  }

  function StoredOptionalLoc(l: Option<BlobLoc>): Option<BlobLoc> {
    if l.Some? then Some(StoredLoc(l.value)) else None
  }

  function StoredMac(m: MacStat): MacStat {
    m.(ino := m.ino % TWO_TO_64, mode := m.mode % TWO_TO_32, nlink := m.nlink % TWO_TO_32,
       uid := m.uid % TWO_TO_32, gid := m.gid % TWO_TO_32)
  }

  function StoredMeta(m: Meta, version: int): Meta {
    var reparse := version >= REPARSE_FIELDS_MIN_VERSION;
    m.(computerOSType := m.computerOSType % TWO_TO_32, aclBlobLoc := StoredOptionalLoc(m.aclBlobLoc),
       xattrsBlobLocs := StoredLocs(m.xattrsBlobLocs),
       itemSize := m.itemSize % TWO_TO_64, containedFilesCount := m.containedFilesCount % TWO_TO_64,
       mac := StoredMac(m.mac), winAttrs := m.winAttrs % TWO_TO_32,
       reparseTag := if reparse then m.reparseTag % TWO_TO_32 else 0,
       reparseIsDirectory := reparse && m.reparseIsDirectory,
       trailingBlock := if version >= TRAILING_BLOCK_VERSION then TrailingBlock(m) else [],
       scannedAtSec := 0, scannedAtNsec := 0)
  }

  function StoredNode(n: Node, version: int): Node {
    match n
    case FileNode(data, m) => FileNode(StoredLocs(data), StoredMeta(m, version))
    case TreeNode(loc, m) => TreeNode(StoredLoc(loc), StoredMeta(m, version))
  }

  function StoredChildren(cs: seq<TreeChild>, version: int): (r: seq<TreeChild>)
    ensures |r| == |cs|
    ensures forall i :: 0 <= i < |cs| ==> r[i] == TreeChild(cs[i].name, StoredNode(cs[i].node, version))
  {
    if cs == [] then []
    else
      var c := cs[|cs| - 1];
      StoredChildren(cs[..|cs| - 1], version) + [TreeChild(c.name, StoredNode(c.node, version))]
  }

  function StoredTree(t: Tree, version: nat): Tree {
    Tree(StoredChildren(t.children, version), version)
  }

  /* ---- Each reader on each writer's output ---- */

  lemma ReadUint(d: bytes, p: nat, n: nat, width: nat)
    requires At(d, p, BigEndian(n, width))
    ensures GetUint(d, p, width) == Ok((n % Pow256(width), p + width))
  {
    UnsignedOfBigEndian(n, width);
  }

  lemma ReadUint32(d: bytes, p: nat, v: int)
    requires At(d, p, WriteUint32(v))
    ensures GetUint(d, p, 4) == Ok((v % TWO_TO_32, p + 4))
  {
    Pow256Values();
    ReadUint(d, p, v % TWO_TO_32, 4);
  }

  lemma ReadUint64(d: bytes, p: nat, v: int)
    requires At(d, p, WriteUint64(v))
    ensures GetUint(d, p, 8) == Ok((v % TWO_TO_64, p + 8))
  {
    Pow256Values();
    ReadUint(d, p, v % TWO_TO_64, 8);
  }

  lemma ReadInt32(d: bytes, p: nat, v: int32)
    requires At(d, p, WriteInt32(v))
    ensures GetInt32(d, p) == Ok((v, p + 4))
  {
    Pow256Values();
    ReadUint(d, p, v % TWO_TO_32, 4);
  }

  lemma ReadInt64(d: bytes, p: nat, v: int64)
    requires At(d, p, WriteInt64(v))
    ensures GetInt64(d, p) == Ok((v, p + 8))
  {
    Pow256Values();
    ReadUint(d, p, v % TWO_TO_64, 8);
  }

  lemma ReadBool(d: bytes, p: nat, b: bool)
    requires At(d, p, WriteBool(b))
    ensures GetBool(d, p) == Ok((b, p + 1))
  {}

  lemma ReadString(d: bytes, p: nat, s: Option<bytes>)
    requires SizedString(s) && At(d, p, WriteString(s))
    ensures GetString(d, p) == Ok((s, p + |WriteString(s)|))
  {
    if s.Some? {
      Split3(d, p, [1], WriteUint64(|s.value|), s.value);
      assert d[p..p + 1] == [1];
      ReadUint64(d, p + 1, |s.value|);
    } else {
      assert d[p..p + 1] == [0];
    }
  }

  lemma ReadBlobLoc(d: bytes, p: nat, l: BlobLoc)
    requires SizedLoc(l) && At(d, p, WriteBlobLoc(l))
    ensures GetBlobLoc(d, p) == Ok((StoredLoc(l), p + |WriteBlobLoc(l)|))
  {
    hide At, WriteString, WriteBool, WriteUint64, WriteUint32, GetString, GetBool, GetUint;
    var a := WriteString(Some(l.blobIdentifier)) + WriteBool(l.isPacked) + WriteBool(l.isLargePack)
             + WriteString(Some(l.relativePath));
    var b := WriteUint64(l.offset) + WriteUint64(l.length) + WriteBool(l.stretchEncryptionKey)
             + WriteUint32(l.compressionType);
    Split2(d, p, a, b);
    Split4(d, p, WriteString(Some(l.blobIdentifier)), WriteBool(l.isPacked), WriteBool(l.isLargePack),
           WriteString(Some(l.relativePath)));
    var q := p + |WriteString(Some(l.blobIdentifier))|;
    ReadString(d, p, Some(l.blobIdentifier));
    ReadBool(d, q, l.isPacked);
    ReadBool(d, q + 1, l.isLargePack);
    ReadString(d, q + 2, Some(l.relativePath));
    ReadLocTail(d, p + |a|, l);
  }

  lemma ReadLocTail(d: bytes, p: nat, l: BlobLoc)
    requires At(d, p, WriteUint64(l.offset) + WriteUint64(l.length) + WriteBool(l.stretchEncryptionKey)
                      + WriteUint32(l.compressionType))
    ensures GetUint(d, p, 8) == Ok((l.offset % TWO_TO_64, p + 8))
    ensures GetUint(d, p + 8, 8) == Ok((l.length % TWO_TO_64, p + 16))
    ensures GetBool(d, p + 16) == Ok((l.stretchEncryptionKey, p + 17))
    ensures GetUint(d, p + 17, 4) == Ok((l.compressionType % TWO_TO_32, p + 21))
  {
    hide At, WriteString, WriteBool, WriteUint64, WriteUint32, GetString, GetBool, GetUint;
    Split4(d, p, WriteUint64(l.offset), WriteUint64(l.length), WriteBool(l.stretchEncryptionKey),
           WriteUint32(l.compressionType));
    ReadUint64(d, p, l.offset);
    ReadUint64(d, p + 8, l.length);
    ReadBool(d, p + 16, l.stretchEncryptionKey);
    ReadUint32(d, p + 17, l.compressionType);
  }

  lemma {:induction false} ReadBlobLocs(d: bytes, p: nat, ls: seq<BlobLoc>)
    requires forall i :: 0 <= i < |ls| ==> SizedLoc(ls[i])
    requires At(d, p, WriteBlobLocs(ls))
    ensures GetBlobLocs(d, p, |ls|) == Ok((StoredLocs(ls), p + |WriteBlobLocs(ls)|))
  {
    hide At, WriteBlobLoc, GetBlobLoc, StoredLoc;
    if ls != [] {
      var init, last := ls[..|ls| - 1], ls[|ls| - 1];
      Split2(d, p, WriteBlobLocs(init), WriteBlobLoc(last));
      ReadBlobLocs(d, p, init);
      ReadBlobLoc(d, p + |WriteBlobLocs(init)|, last);
    }
  }

  lemma ReadOptionalLoc(d: bytes, p: nat, l: Option<BlobLoc>)
    requires l.Some? ==> SizedLoc(l.value)
    requires At(d, p, WriteOptionalLoc(l))
    ensures GetOptionalLoc(d, p) == Ok((StoredOptionalLoc(l), p + |WriteOptionalLoc(l)|))
  {
    hide At, WriteBool, WriteBlobLoc, GetBool, GetBlobLoc, StoredLoc;
    Split2(d, p, WriteBool(l.Some?), if l.Some? then WriteBlobLoc(l.value) else []);
    ReadBool(d, p, l.Some?);
    if l.Some? {
      ReadBlobLoc(d, p + 1, l.value);
    }
  }

  lemma ReadTimes(d: bytes, p: nat, t: Times)
    requires At(d, p, WriteTimes(t))
    ensures GetTimes(d, p) == Ok((t, p + |WriteTimes(t)|))
  {
    hide At, WriteInt64, GetInt64;
    Split2(d, p, WriteInt64(t.mtimeSec) + WriteInt64(t.mtimeNsec) + WriteInt64(t.ctimeSec),
           WriteInt64(t.ctimeNsec) + WriteInt64(t.createSec) + WriteInt64(t.createNsec));
    ReadThree(d, p, t.mtimeSec, t.mtimeNsec, t.ctimeSec);
    ReadThree(d, p + 24, t.ctimeNsec, t.createSec, t.createNsec);
  }

  lemma ReadThree(d: bytes, p: nat, x: int64, y: int64, z: int64)
    requires At(d, p, WriteInt64(x) + WriteInt64(y) + WriteInt64(z))
    ensures GetInt64(d, p) == Ok((x, p + 8)) && GetInt64(d, p + 8) == Ok((y, p + 16))
    ensures GetInt64(d, p + 16) == Ok((z, p + 24))
  {
    hide At, WriteInt64, GetInt64;
    Split3(d, p, WriteInt64(x), WriteInt64(y), WriteInt64(z));
    ReadInt64(d, p, x);
    ReadInt64(d, p + 8, y);
    ReadInt64(d, p + 16, z);
  }

  lemma ReadMac(d: bytes, p: nat, m: MacStat)
    requires At(d, p, WriteMac(m))
    ensures GetMac(d, p) == Ok((StoredMac(m), p + |WriteMac(m)|))
  {
    hide At, WriteInt32, WriteUint32, WriteUint64, GetInt32, GetUint;
    Split2(d, p, WriteInt32(m.dev) + WriteUint64(m.ino) + WriteUint32(m.mode) + WriteUint32(m.nlink),
           WriteUint32(m.uid) + WriteUint32(m.gid) + WriteInt32(m.rdev) + WriteInt32(m.flags));
    Split4(d, p, WriteInt32(m.dev), WriteUint64(m.ino), WriteUint32(m.mode), WriteUint32(m.nlink));
    Split4(d, p + 20, WriteUint32(m.uid), WriteUint32(m.gid), WriteInt32(m.rdev), WriteInt32(m.flags));
    ReadInt32(d, p, m.dev);
    ReadUint64(d, p + 4, m.ino);
    ReadUint32(d, p + 12, m.mode);
    ReadUint32(d, p + 16, m.nlink);
    ReadUint32(d, p + 20, m.uid);
    ReadUint32(d, p + 24, m.gid);
    ReadInt32(d, p + 28, m.rdev);
    ReadInt32(d, p + 32, m.flags);
  }

  lemma ReadFixed(d: bytes, p: nat, m: Meta)
    requires SizedMeta(m) && At(d, p, WriteFixed(m))
    ensures GetFixed(d, p) == Ok((
      Fixed(m.itemSize % TWO_TO_64, m.containedFilesCount % TWO_TO_64, m.times, m.username, m.groupName,
            m.deleted, StoredMac(m.mac), m.winAttrs % TWO_TO_32), p + |WriteFixed(m)|))
  {
    hide At, WriteString, WriteBool, WriteUint64, WriteUint32, GetString, GetBool, GetUint, WriteTimes, WriteMac,
         GetTimes, GetMac, StoredMac;
    var a := WriteUint64(m.itemSize) + WriteUint64(m.containedFilesCount) + WriteTimes(m.times);
    var b := WriteString(m.username) + WriteString(m.groupName) + WriteBool(m.deleted)
             + WriteMac(m.mac) + WriteUint32(m.winAttrs);
    Split2(d, p, a, b);
    Split3(d, p, WriteUint64(m.itemSize), WriteUint64(m.containedFilesCount), WriteTimes(m.times));
    ReadUint64(d, p, m.itemSize);
    ReadUint64(d, p + 8, m.containedFilesCount);
    ReadTimes(d, p + 16, m.times);
    ReadOwner(d, p + |a|, m);
  }

  lemma ReadOwner(d: bytes, p: nat, m: Meta)
    requires SizedMeta(m)
    requires At(d, p, WriteString(m.username) + WriteString(m.groupName) + WriteBool(m.deleted)
                      + WriteMac(m.mac) + WriteUint32(m.winAttrs))
    ensures var p1 := p + |WriteString(m.username)|;
            var p2 := p1 + |WriteString(m.groupName)|;
            var p3 := p2 + 1 + |WriteMac(m.mac)|;
            && GetString(d, p) == Ok((m.username, p1))
            && GetString(d, p1) == Ok((m.groupName, p2))
            && GetBool(d, p2) == Ok((m.deleted, p2 + 1))
            && GetMac(d, p2 + 1) == Ok((StoredMac(m.mac), p3))
            && GetUint(d, p3, 4) == Ok((m.winAttrs % TWO_TO_32, p3 + 4))
  {
    hide At, WriteString, WriteBool, WriteUint64, WriteUint32, GetString, GetBool, GetUint, WriteMac, GetMac, StoredMac;
    Split5(d, p, WriteString(m.username), WriteString(m.groupName), WriteBool(m.deleted),
           WriteMac(m.mac), WriteUint32(m.winAttrs));
    var p1 := p + |WriteString(m.username)|;
    var p2 := p1 + |WriteString(m.groupName)|;
    ReadString(d, p, m.username);
    ReadString(d, p1, m.groupName);
    ReadBool(d, p2, m.deleted);
    ReadMac(d, p2 + 1, m.mac);
    ReadUint32(d, p2 + 1 + |WriteMac(m.mac)|, m.winAttrs);
  }

  lemma ReadVersioned(d: bytes, p: nat, m: Meta, version: int)
    requires At(d, p, WriteVersioned(m, version))
    ensures GetVersioned(d, p, version) == Ok((
      Versioned(StoredMeta(m, version).reparseTag, StoredMeta(m, version).reparseIsDirectory,
                StoredMeta(m, version).trailingBlock), p + |WriteVersioned(m, version)|))
  {
    hide WriteBool, WriteUint32, TrailingBlock, GetUint, GetBool;
    var a := if version >= REPARSE_FIELDS_MIN_VERSION
             then WriteUint32(m.reparseTag) + WriteBool(m.reparseIsDirectory) else [];
    var b := if version >= TRAILING_BLOCK_VERSION then TrailingBlock(m) else [];
    Split2(d, p, a, b);
    if version >= REPARSE_FIELDS_MIN_VERSION {
      Split2(d, p, WriteUint32(m.reparseTag), WriteBool(m.reparseIsDirectory));
      ReadUint32(d, p, m.reparseTag);
      ReadBool(d, p + 4, m.reparseIsDirectory);
    }
  }

  function TreeLoc(n: Node): Option<BlobLoc> {
    if n.TreeNode? then Some(n.treeBlobLoc) else None
  }

  function DataLocs(n: Node): seq<BlobLoc> {
    if n.FileNode? then n.dataBlobLocs else []
  }

  lemma NodeLocsGrouped(n: Node)
    ensures WriteNodeLocs(n)
         == (WriteOptionalLoc(TreeLoc(n)) + WriteUint32(n.meta.computerOSType)
             + WriteUint64(|DataLocs(n)|) + WriteBlobLocs(DataLocs(n)))
            + (WriteOptionalLoc(n.meta.aclBlobLoc) + WriteUint64(|n.meta.xattrsBlobLocs|)
               + WriteBlobLocs(n.meta.xattrsBlobLocs))
  {
    hide WriteBlobLocs, WriteBlobLoc, WriteUint64, WriteUint32, WriteBool;
  }

  lemma ReadNodeLocs(d: bytes, p: nat, n: Node)
    requires SizedNode(n) && At(d, p, WriteNodeLocs(n))
    ensures GetNodeLocs(d, p) == Ok((
      NodeLocs(StoredOptionalLoc(TreeLoc(n)), n.meta.computerOSType % TWO_TO_32, StoredLocs(DataLocs(n)),
               StoredOptionalLoc(n.meta.aclBlobLoc), StoredLocs(n.meta.xattrsBlobLocs)),
      p + |WriteNodeLocs(n)|))
  {
    hide At, WriteNodeLocs, WriteUint64, WriteUint32, GetUint, WriteOptionalLoc, WriteBlobLocs, WriteBlobLoc,
         GetOptionalLoc, GetBlobLocs, StoredLoc, StoredLocs, StoredOptionalLoc;
    NodeLocsGrouped(n);
    var a1, a2 := WriteOptionalLoc(TreeLoc(n)), WriteUint32(n.meta.computerOSType);
    var a3, a4 := WriteUint64(|DataLocs(n)|), WriteBlobLocs(DataLocs(n));
    var b1, b2, b3 := WriteOptionalLoc(n.meta.aclBlobLoc), WriteUint64(|n.meta.xattrsBlobLocs|),
      WriteBlobLocs(n.meta.xattrsBlobLocs);
    Split2(d, p, a1 + a2 + a3 + a4, b1 + b2 + b3);
    Split4(d, p, a1, a2, a3, a4);
    ReadOptionalLoc(d, p, TreeLoc(n));
    var q := p + |a1|;
    ReadUint32(d, q, n.meta.computerOSType);
    ReadUint64(d, q + 4, |DataLocs(n)|);
    ReadBlobLocs(d, q + 12, DataLocs(n));
    var q' := q + 12 + |a4|;
    Split3(d, q', b1, b2, b3);
    ReadOptionalLoc(d, q', n.meta.aclBlobLoc);
    ReadUint64(d, q' + |b1|, |n.meta.xattrsBlobLocs|);
    ReadBlobLocs(d, q' + |b1| + 8, n.meta.xattrsBlobLocs);
  }

  /** One node, read from wherever it was written, stops exactly at its end. */
  lemma ReadNode(d: bytes, p: nat, n: Node, version: int)
    requires SizedNode(n) && At(d, p, WriteNode(n, version))
    ensures GetNode(d, p, version) == Ok((StoredNode(n, version), p + |WriteNode(n, version)|))
  {
    hide At, WriteNodeLocs, WriteFixed, WriteVersioned, GetNodeLocs, GetFixed, GetVersioned;
    Split3(d, p, WriteNodeLocs(n), WriteFixed(n.meta), WriteVersioned(n.meta, version));
    ReadNodeLocs(d, p, n);
    ReadFixed(d, p + |WriteNodeLocs(n)|, n.meta);
    ReadVersioned(d, p + |WriteNodeLocs(n)| + |WriteFixed(n.meta)|, n.meta, version);
  }

  lemma {:induction false} ReadChildren(d: bytes, p: nat, cs: seq<TreeChild>, version: int)
    requires SizedChildren(cs) && At(d, p, WriteChildren(cs, version))
    ensures GetChildren(d, p, |cs|, version)
         == Ok((StoredChildren(cs, version), p + |WriteChildren(cs, version)|))
  {
    hide At, WriteString, WriteNode, GetString, GetNode, StoredNode;
    if cs != [] {
      var init, c := cs[..|cs| - 1], cs[|cs| - 1];
      var q := p + |WriteChildren(init, version)|;
      Split2(d, p, WriteChildren(init, version), WriteString(Some(c.name)) + WriteNode(c.node, version));
      Split2(d, q, WriteString(Some(c.name)), WriteNode(c.node, version));
      ReadChildren(d, p, init, version);
      ReadString(d, q, Some(c.name));
      ReadNode(d, q + |WriteString(Some(c.name))|, c.node, version);
    }
  }

  /**
   Main result: reading any written tree, with anything after it, gives its stored form, for
   every version that fits the 4-byte field.
  */
  lemma ParseInvertsWrite(t: Tree, version: nat, suffix: bytes)
    requires Sized(t) && version < TWO_TO_32
    ensures ParseTree(WriteTree(t, version) + suffix) == Ok(StoredTree(t, version))
  {
    hide At, WriteUint32, WriteUint64, WriteChildren, GetUint, GetChildren, StoredChildren;
    var w := WriteTree(t, version);
    var d := w + suffix;
    AtPrefix(w, suffix);
    Split3(d, 0, WriteUint32(version), WriteUint64(|t.children|), WriteChildren(t.children, version));
    ReadUint32(d, 0, version);
    ReadUint64(d, 4, |t.children|);
    ReadChildren(d, 12, t.children, version);
  }

  /* ---- When nothing is lost, and unique decodability ---- */

  predicate FitsLoc(l: BlobLoc) {
    0 <= l.offset < TWO_TO_64 && 0 <= l.length < TWO_TO_64 && 0 <= l.compressionType < TWO_TO_32
  }

  predicate FitsLocs(ls: seq<BlobLoc>) { forall i :: 0 <= i < |ls| ==> FitsLoc(ls[i]) }

  predicate FitsMac(m: MacStat) {
    && 0 <= m.ino < TWO_TO_64 && 0 <= m.mode < TWO_TO_32 && 0 <= m.nlink < TWO_TO_32
    && 0 <= m.uid < TWO_TO_32 && 0 <= m.gid < TWO_TO_32
  }

  predicate FitsMeta(m: Meta, version: int) {
    && 0 <= m.computerOSType < TWO_TO_32 && (m.aclBlobLoc.Some? ==> FitsLoc(m.aclBlobLoc.value))
    && FitsLocs(m.xattrsBlobLocs)
    && 0 <= m.itemSize < TWO_TO_64 && 0 <= m.containedFilesCount < TWO_TO_64
    && FitsMac(m.mac) && 0 <= m.winAttrs < TWO_TO_32
    && (if version >= REPARSE_FIELDS_MIN_VERSION then 0 <= m.reparseTag < TWO_TO_32
        else m.reparseTag == 0 && !m.reparseIsDirectory)
    && |m.trailingBlock| == (if version >= TRAILING_BLOCK_VERSION then TRAILING_BLOCK_BYTES else 0)
    && m.scannedAtSec == 0 && m.scannedAtNsec == 0
  }

  predicate FitsNode(n: Node, version: int) {
    && FitsMeta(n.meta, version)
    && (match n case FileNode(data, _) => FitsLocs(data) case TreeNode(loc, _) => FitsLoc(loc))
  }

  predicate Fits(t: Tree, version: int) {
    t.version == version && forall i :: 0 <= i < |t.children| ==> FitsNode(t.children[i].node, version)
  }

  lemma FitsLocsExact(ls: seq<BlobLoc>)
    ensures StoredLocs(ls) == ls <==> FitsLocs(ls)
  {
    if StoredLocs(ls) == ls {
      forall i | 0 <= i < |ls| ensures FitsLoc(ls[i]) {
        assert StoredLoc(ls[i]) == ls[i];
      }
    }
  }

  lemma FitsNodeExact(n: Node, version: int)
    ensures StoredNode(n, version) == n <==> FitsNode(n, version)
  {
    FitsLocsExact(n.meta.xattrsBlobLocs);
    if n.FileNode? {
      FitsLocsExact(n.dataBlobLocs);
    }
    FitsMetaExact(n.meta, version);
  }

  lemma FitsMetaExact(m: Meta, version: int)
    ensures StoredMeta(m, version) == m <==> FitsMeta(m, version)
  {
    FitsLocsExact(m.xattrsBlobLocs);
  }

  /** A tree survives writing and reading exactly when every field of every child fits. */
  lemma RoundTripIffFits(t: Tree, version: nat, suffix: bytes)
    requires Sized(t) && version < TWO_TO_32
    ensures ParseTree(WriteTree(t, version) + suffix) == Ok(t) <==> Fits(t, version)
  {
    hide ParseTree, WriteTree, StoredNode, FitsNode;
    ParseInvertsWrite(t, version, suffix);
    forall i | 0 <= i < |t.children|
      ensures StoredChildren(t.children, version)[i] == t.children[i] <==> FitsNode(t.children[i].node, version)
    {
      FitsNodeExact(t.children[i].node, version);
    }
    var s := StoredTree(t, version);
    if s == t {
      forall i | 0 <= i < |t.children| ensures FitsNode(t.children[i].node, version) {
        assert s.children[i] == t.children[i];
      }
    }
  }

  /** No node's bytes are a proper prefix of another's, and equal bytes mean equal nodes. */
  lemma NodesArePrefixFree(n: Node, n': Node, version: int, rest: bytes, rest': bytes)
    requires SizedNode(n) && SizedNode(n')
    requires WriteNode(n, version) + rest == WriteNode(n', version) + rest'
    ensures StoredNode(n, version) == StoredNode(n', version) && rest == rest'
  {
    var d := WriteNode(n, version) + rest;
    AtPrefix(WriteNode(n, version), rest);
    AtPrefix(WriteNode(n', version), rest');
    ReadNode(d, 0, n, version);
    ReadNode(d, 0, n', version);
    assert rest == d[|WriteNode(n, version)|..];
    assert rest' == d[|WriteNode(n', version)|..];
  }

  /* ---- What was read can always be written back ---- */

  lemma UintFits(d: bytes, p: nat)
    ensures GetUint(d, p, 4).Ok? ==> GetUint(d, p, 4).value.0 < TWO_TO_32
    ensures GetUint(d, p, 8).Ok? ==> GetUint(d, p, 8).value.0 < TWO_TO_64
  {
    UintBound(d, p, 4);
    UintBound(d, p, 8);
  }

  lemma ReadStringSized(d: bytes, p: nat)
    ensures GetString(d, p).Ok? ==> SizedString(GetString(d, p).value.0)
  {
    UintFits(d, p + 1);
  }

  lemma ReadLocFits(d: bytes, p: nat)
    requires GetBlobLoc(d, p).Ok?
    ensures SizedLoc(GetBlobLoc(d, p).value.0) && FitsLoc(GetBlobLoc(d, p).value.0)
  {
    hide GetString, GetUint, GetBool;
    ReadStringSized(d, p);
    var p3 := GetBool(d, GetBool(d, GetString(d, p).value.1).value.1).value.1;
    ReadStringSized(d, p3);
    var p4 := GetString(d, p3).value.1;
    UintFits(d, p4);
    var p5 := GetUint(d, p4, 8).value.1;
    UintFits(d, p5);
    UintFits(d, GetBool(d, GetUint(d, p5, 8).value.1).value.1);
  }

  lemma {:induction false} ReadLocsFit(d: bytes, p: nat, count: nat)
    requires GetBlobLocs(d, p, count).Ok?
    ensures var ls := GetBlobLocs(d, p, count).value.0;
            |ls| == count && FitsLocs(ls) && forall i :: 0 <= i < |ls| ==> SizedLoc(ls[i])
  {
    hide GetBlobLoc;
    if count > 0 {
      ReadLocsFit(d, p, count - 1);
      ReadLocFits(d, GetBlobLocs(d, p, count - 1).value.1);
    }
  }

  lemma ReadOptionalLocFits(d: bytes, p: nat)
    ensures GetOptionalLoc(d, p).Ok? && GetOptionalLoc(d, p).value.0.Some?
        ==> FitsLoc(GetOptionalLoc(d, p).value.0.value) && SizedLoc(GetOptionalLoc(d, p).value.0.value)
  {
    hide GetBlobLoc;
    if GetBlobLoc(d, p + 1).Ok? {
      ReadLocFits(d, p + 1);
    }
  }

  lemma ReadNodeLocsFit(d: bytes, p: nat)
    requires GetNodeLocs(d, p).Ok?
    ensures var l := GetNodeLocs(d, p).value.0;
            && l.computerOSType < TWO_TO_32
            && SizedLocs(l.data) && FitsLocs(l.data) && SizedLocs(l.xattrs) && FitsLocs(l.xattrs)
            && (l.tree.Some? ==> FitsLoc(l.tree.value) && SizedLoc(l.tree.value))
            && (l.acl.Some? ==> FitsLoc(l.acl.value) && SizedLoc(l.acl.value))
  {
    hide GetOptionalLoc, GetUint, GetBlobLocs, FitsLoc, SizedLoc;
    ReadOptionalLocFits(d, p);
    var p1 := GetOptionalLoc(d, p).value.1;
    UintFits(d, p1);
    var p2 := GetUint(d, p1, 4).value.1;
    UintFits(d, p2);
    var (n, p3) := GetUint(d, p2, 8).value;
    ReadLocsFit(d, p3, n);
    var p4 := GetBlobLocs(d, p3, n).value.1;
    ReadOptionalLocFits(d, p4);
    var p5 := GetOptionalLoc(d, p4).value.1;
    UintFits(d, p5);
    var (m, p6) := GetUint(d, p5, 8).value;
    ReadLocsFit(d, p6, m);
  }

  lemma ReadMacFits(d: bytes, p: nat)
    requires GetMac(d, p).Ok?
    ensures FitsMac(GetMac(d, p).value.0)
  {
    hide GetUint, GetInt32;
    var p1 := GetInt32(d, p).value.1;
    var p2 := GetUint(d, p1, 8).value.1;
    var p3 := GetUint(d, p2, 4).value.1;
    var p4 := GetUint(d, p3, 4).value.1;
    UintFits(d, p1);
    UintFits(d, p2);
    UintFits(d, p3);
    UintFits(d, p4);
    UintFits(d, GetUint(d, p4, 4).value.1);
  }

  lemma ReadFixedFits(d: bytes, p: nat)
    requires GetFixed(d, p).Ok?
    ensures var f := GetFixed(d, p).value.0;
            && f.itemSize < TWO_TO_64 && f.containedFilesCount < TWO_TO_64 && f.winAttrs < TWO_TO_32
            && FitsMac(f.mac) && SizedString(f.username) && SizedString(f.groupName)
  {
    hide GetUint, GetTimes, GetString, GetBool, GetMac, FitsMac, SizedString;
    var p1 := GetUint(d, p, 8).value.1;
    UintFits(d, p);
    UintFits(d, p1);
    var p2 := GetUint(d, p1, 8).value.1;
    var p3 := GetTimes(d, p2).value.1;
    ReadStringSized(d, p3);
    var p4 := GetString(d, p3).value.1;
    ReadStringSized(d, p4);
    var p6 := GetBool(d, GetString(d, p4).value.1).value.1;
    ReadMacFits(d, p6);
    UintFits(d, GetMac(d, p6).value.1);
  }

  lemma ReadNodeFits(d: bytes, p: nat, version: int)
    requires GetNode(d, p, version).Ok?
    ensures SizedNode(GetNode(d, p, version).value.0) && FitsNode(GetNode(d, p, version).value.0, version)
  {
    hide GetNodeLocs, GetFixed, GetUint, GetBool, SizedLocs, FitsLocs, SizedLoc, FitsLoc, FitsMac;
    ReadNodeLocsFit(d, p);
    var p1 := GetNodeLocs(d, p).value.1;
    ReadFixedFits(d, p1);
    UintFits(d, GetFixed(d, p1).value.1);
  }

  lemma {:induction false} ReadChildrenFit(d: bytes, p: nat, count: nat, version: int)
    requires GetChildren(d, p, count, version).Ok?
    ensures var cs := GetChildren(d, p, count, version).value.0;
            && |cs| == count && SizedChildren(cs)
            && forall i :: 0 <= i < |cs| ==> FitsNode(cs[i].node, version)
  {
    hide GetString, GetNode, SizedNode, FitsNode;
    if count > 0 {
      ReadChildrenFit(d, p, count - 1, version);
      var p1 := GetChildren(d, p, count - 1, version).value.1;
      ReadStringSized(d, p1);
      ReadNodeFits(d, GetString(d, p1).value.1, version);
    }
  }

  /**
   For every byte string that parses, whoever wrote it: writing the parsed tree under its own
   version and parsing again gives the same tree, so re-emitting loses no field.
  */
  lemma ReadWriteRead(d: bytes)
    requires ParseTree(d).Ok?
    ensures var t := ParseTree(d).value;
            && t.version < TWO_TO_32
            && ParseTree(WriteTree(t, t.version)) == Ok(t)
  {
    hide GetUint, GetChildren, WriteTree;
    UintFits(d, 0);
    var (version, p1) := GetUint(d, 0, 4).value;
    UintFits(d, p1);
    var (count, p2) := GetUint(d, p1, 8).value;
    ReadChildrenFit(d, p2, count, version);
    var t := ParseTree(d).value;
    RoundTripIffFits(t, t.version, []);
    assert WriteTree(t, t.version) + [] == WriteTree(t, t.version);
  }
}
