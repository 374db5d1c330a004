/**
 The Arq 7 binary Tree: its entities, the writer, and what the reader makes of a byte string.
 Text is kept as its UTF-8 bytes.
*/
module TreeFormat {
  import opened Wrappers
  import opened Bytes

  const REPARSE_FIELDS_MIN_VERSION: nat := 2
  const TRAILING_BLOCK_VERSION: nat := 4
  const TRAILING_BLOCK_BYTES: nat := 38

  datatype BlobLoc = BlobLoc(
    blobIdentifier: bytes, isPacked: bool, isLargePack: bool, relativePath: bytes,
    offset: int, length: int, stretchEncryptionKey: bool, compressionType: int)

  datatype Times = Times(
    mtimeSec: int64, mtimeNsec: int64, ctimeSec: int64, ctimeNsec: int64,
    createSec: int64, createNsec: int64)

  datatype MacStat = MacStat(
    dev: int32, ino: int, mode: int, nlink: int, uid: int, gid: int, rdev: int32, flags: int32)

  /** The fields a FileNode and a TreeNode share. */
  datatype Meta = Meta(
    computerOSType: int, aclBlobLoc: Option<BlobLoc>, xattrsBlobLocs: seq<BlobLoc>,
    itemSize: int, containedFilesCount: int, times: Times,
    username: Option<bytes>, groupName: Option<bytes>, deleted: bool, mac: MacStat, winAttrs: int,
    reparseTag: int, reparseIsDirectory: bool,
    trailingBlock: bytes, scannedAtSec: int64, scannedAtNsec: int64)

  datatype Node =
    | FileNode(dataBlobLocs: seq<BlobLoc>, meta: Meta)
    | TreeNode(treeBlobLoc: BlobLoc, meta: Meta)

  datatype TreeChild = TreeChild(name: bytes, node: Node)

  datatype Tree = Tree(children: seq<TreeChild>, version: int)

  /* ---- The writer ---- */

  function WriteBool(b: bool): (w: bytes)
    ensures |w| == 1
  {
    if b then [1] else [0]
  }

  function WriteUint32(v: int): (w: bytes)
    ensures |w| == 4
  {
    BigEndian(v % TWO_TO_32, 4)
  }

  function WriteUint64(v: int): (w: bytes)
    ensures |w| == 8
  {
    BigEndian(v % TWO_TO_64, 8)
  }

  function WriteInt32(v: int32): (w: bytes)
    ensures |w| == 4
  {
    BigEndian(v % TWO_TO_32, 4)
  }

  function WriteInt64(v: int64): (w: bytes)
    ensures |w| == 8
  {
    BigEndian(v % TWO_TO_64, 8)
  }

  function WriteString(s: Option<bytes>): bytes {
    match s
    case None => [0]
    case Some(t) => [1] + WriteUint64(|t|) + t
  }

  function WriteBlobLoc(l: BlobLoc): bytes {
    (WriteString(Some(l.blobIdentifier)) + WriteBool(l.isPacked) + WriteBool(l.isLargePack)
     + WriteString(Some(l.relativePath)))
    + (WriteUint64(l.offset) + WriteUint64(l.length) + WriteBool(l.stretchEncryptionKey)
       + WriteUint32(l.compressionType))
  }

  function WriteBlobLocs(ls: seq<BlobLoc>): bytes {
    if ls == [] then [] else WriteBlobLocs(ls[..|ls| - 1]) + WriteBlobLoc(ls[|ls| - 1])
  }

  function WriteOptionalLoc(l: Option<BlobLoc>): bytes {
    WriteBool(l.Some?) + (if l.Some? then WriteBlobLoc(l.value) else [])
  }

  function WriteTimes(t: Times): bytes {
    (WriteInt64(t.mtimeSec) + WriteInt64(t.mtimeNsec) + WriteInt64(t.ctimeSec))
    + (WriteInt64(t.ctimeNsec) + WriteInt64(t.createSec) + WriteInt64(t.createNsec))
  }

  function WriteMac(m: MacStat): bytes {
    (WriteInt32(m.dev) + WriteUint64(m.ino) + WriteUint32(m.mode) + WriteUint32(m.nlink))
    + (WriteUint32(m.uid) + WriteUint32(m.gid) + WriteInt32(m.rdev) + WriteInt32(m.flags))
  }

  /** The version-4 block: the preserved bytes, or one made from scanned-at or creation time. */
  function TrailingBlock(m: Meta): (b: bytes)
    ensures |b| == TRAILING_BLOCK_BYTES
  {
    if |m.trailingBlock| == TRAILING_BLOCK_BYTES then m.trailingBlock
    else
      var fromScan := m.scannedAtSec != 0 || m.scannedAtNsec != 0;
      WriteInt64(if fromScan then m.scannedAtSec else m.times.createSec)
      + WriteInt64(if fromScan then m.scannedAtNsec else m.times.createNsec)
      + WriteInt64(0x0100_0000) + [0, 0, 0, 0, 0, 0, 0, 0, 0, 0, 0, 0, 0, 0]
  }

  function WriteVersioned(m: Meta, version: int): bytes {
    (if version >= REPARSE_FIELDS_MIN_VERSION
     then WriteUint32(m.reparseTag) + WriteBool(m.reparseIsDirectory) else [])
    + (if version >= TRAILING_BLOCK_VERSION then TrailingBlock(m) else [])
  }

  function WriteNodeLocs(n: Node): bytes {
    var data := if n.FileNode? then n.dataBlobLocs else [];
    (WriteBool(n.TreeNode?) + (if n.TreeNode? then WriteBlobLoc(n.treeBlobLoc) else [])
     + WriteUint32(n.meta.computerOSType) + WriteUint64(|data|) + WriteBlobLocs(data))
    + (WriteOptionalLoc(n.meta.aclBlobLoc)
       + WriteUint64(|n.meta.xattrsBlobLocs|) + WriteBlobLocs(n.meta.xattrsBlobLocs))
  }

  function WriteFixed(m: Meta): bytes {
    (WriteUint64(m.itemSize) + WriteUint64(m.containedFilesCount) + WriteTimes(m.times))
    + (WriteString(m.username) + WriteString(m.groupName) + WriteBool(m.deleted)
       + WriteMac(m.mac) + WriteUint32(m.winAttrs))
  }

  function WriteNode(n: Node, version: int): bytes {
    WriteNodeLocs(n) + WriteFixed(n.meta) + WriteVersioned(n.meta, version)
  }

  function WriteChildren(cs: seq<TreeChild>, version: int): bytes {
    if cs == [] then []
    else
      var c := cs[|cs| - 1];
      WriteChildren(cs[..|cs| - 1], version) + (WriteString(Some(c.name)) + WriteNode(c.node, version))
  }

  /** write_tree: the version argument is written, the tree's own version field is not looked at. */
  function WriteTree(t: Tree, version: int): bytes {
    WriteUint32(version) + WriteUint64(|t.children|) + WriteChildren(t.children, version)
  }

  /* ---- What the reader computes, as functions of the buffer and a position ---- */

  function GetRaw(d: bytes, p: nat, n: nat): Result<(bytes, nat)> {
    if p + n > |d| then Err else Ok((d[p..p + n], p + n))
  }

  function GetBool(d: bytes, p: nat): Result<(bool, nat)> {
    var (b, q) :- GetRaw(d, p, 1);
    Ok((b[0] != 0, q))
  }

  function GetUint(d: bytes, p: nat, width: nat): Result<(nat, nat)> {
    var (b, q) :- GetRaw(d, p, width);
    Ok((Unsigned(b), q))
  }

  function ToSigned(u: nat, half: nat): int {
    if u < half then u else u - 2 * half
  }

  function GetInt32(d: bytes, p: nat): Result<(int32, nat)> {
    var (u, q) :- GetUint(d, p, 4);
    UintBound(d, p, 4);
    Ok((ToSigned(u, TWO_TO_31), q))
  }

  function GetInt64(d: bytes, p: nat): Result<(int64, nat)> {
    var (u, q) :- GetUint(d, p, 8);
    UintBound(d, p, 8);
    Ok((ToSigned(u, TWO_TO_63), q))
  }

  lemma UintBound(d: bytes, p: nat, width: nat)
    ensures width == 4 && GetUint(d, p, width).Ok? ==> GetUint(d, p, width).value.0 < TWO_TO_32
    ensures width == 8 && GetUint(d, p, width).Ok? ==> GetUint(d, p, width).value.0 < TWO_TO_64
  {
    Pow256Values();
    if p + width <= |d| {
      UnsignedBound(d[p..p + width]);
    }
  }

  function GetString(d: bytes, p: nat): Result<(Option<bytes>, nat)> {
    var (flag, p1) :- GetRaw(d, p, 1);
    if flag[0] == 0 then Ok((None, p1))
    else if flag[0] != 1 then Err
    else
      var (n, p2) :- GetUint(d, p1, 8);
      var (s, p3) :- GetRaw(d, p2, n);
      Ok((Some(s), p3))
  }

  function OrEmpty(s: Option<bytes>): bytes { if s.Some? then s.value else [] }

  function GetBlobLoc(d: bytes, p: nat): Result<(BlobLoc, nat)> {
    var (id, p1) :- GetString(d, p);
    var (packed, p2) :- GetBool(d, p1);
    var (large, p3) :- GetBool(d, p2);
    var (path, p4) :- GetString(d, p3);
    var (offset, p5) :- GetUint(d, p4, 8);
    var (length, p6) :- GetUint(d, p5, 8);
    var (stretch, p7) :- GetBool(d, p6);
    var (compression, p8) :- GetUint(d, p7, 4);
    Ok((BlobLoc(OrEmpty(id), packed, large, OrEmpty(path), offset, length, stretch, compression), p8))
  }

  function GetBlobLocs(d: bytes, p: nat, count: nat): Result<(seq<BlobLoc>, nat)> {
    if count == 0 then Ok(([], p))
    else
      var (ls, p1) :- GetBlobLocs(d, p, count - 1);
      var (l, p2) :- GetBlobLoc(d, p1);
      Ok((ls + [l], p2))
  }

  function GetOptionalLoc(d: bytes, p: nat): Result<(Option<BlobLoc>, nat)> {
    var (present, p1) :- GetBool(d, p);
    if present then
      var (l, p2) :- GetBlobLoc(d, p1);
      Ok((Some(l), p2))
    else Ok((None, p1))
  }

  datatype NodeLocs = NodeLocs(
    tree: Option<BlobLoc>, computerOSType: nat, data: seq<BlobLoc>,
    acl: Option<BlobLoc>, xattrs: seq<BlobLoc>)

  function GetNodeLocs(d: bytes, p: nat): Result<(NodeLocs, nat)> {
    var (tree, p1) :- GetOptionalLoc(d, p);
    var (os, p2) :- GetUint(d, p1, 4);
    var (dataCount, p3) :- GetUint(d, p2, 8);
    var (data, p4) :- GetBlobLocs(d, p3, dataCount);
    var (acl, p5) :- GetOptionalLoc(d, p4);
    var (xattrCount, p6) :- GetUint(d, p5, 8);
    var (xattrs, p7) :- GetBlobLocs(d, p6, xattrCount);
    Ok((NodeLocs(tree, os, data, acl, xattrs), p7))
  }

  function GetTimes(d: bytes, p: nat): Result<(Times, nat)> {
    var (ms, p1) :- GetInt64(d, p);
    var (mn, p2) :- GetInt64(d, p1);
    var (cs, p3) :- GetInt64(d, p2);
    var (cn, p4) :- GetInt64(d, p3);
    var (bs, p5) :- GetInt64(d, p4);
    var (bn, p6) :- GetInt64(d, p5);
    Ok((Times(ms, mn, cs, cn, bs, bn), p6))
  }

  function GetMac(d: bytes, p: nat): Result<(MacStat, nat)> {
    var (dev, p1) :- GetInt32(d, p);
    var (ino, p2) :- GetUint(d, p1, 8);
    var (mode, p3) :- GetUint(d, p2, 4);
    var (nlink, p4) :- GetUint(d, p3, 4);
    var (uid, p5) :- GetUint(d, p4, 4);
    var (gid, p6) :- GetUint(d, p5, 4);
    var (rdev, p7) :- GetInt32(d, p6);
    var (flags, p8) :- GetInt32(d, p7);
    Ok((MacStat(dev, ino, mode, nlink, uid, gid, rdev, flags), p8))
  }

  datatype Fixed = Fixed(
    itemSize: nat, containedFilesCount: nat, times: Times,
    username: Option<bytes>, groupName: Option<bytes>, deleted: bool, mac: MacStat, winAttrs: nat)

  function GetFixed(d: bytes, p: nat): Result<(Fixed, nat)> {
    var (size, p1) :- GetUint(d, p, 8);
    var (contained, p2) :- GetUint(d, p1, 8);
    var (times, p3) :- GetTimes(d, p2);
    var (user, p4) :- GetString(d, p3);
    var (grp, p5) :- GetString(d, p4);
    var (deleted, p6) :- GetBool(d, p5);
    var (mac, p7) :- GetMac(d, p6);
    var (win, p8) :- GetUint(d, p7, 4);
    Ok((Fixed(size, contained, times, user, grp, deleted, mac, win), p8))
  }

  datatype Versioned = Versioned(reparseTag: nat, reparseIsDirectory: bool, trailingBlock: bytes)

  function GetReparse(d: bytes, p: nat, version: int): Result<((nat, bool), nat)> {
    if version >= REPARSE_FIELDS_MIN_VERSION then
      var (tag, p1) :- GetUint(d, p, 4);
      var (dir, p2) :- GetBool(d, p1);
      Ok(((tag, dir), p2))
    else Ok(((0, false), p))
  }

  function GetVersioned(d: bytes, p: nat, version: int): Result<(Versioned, nat)> {
    var (r, p1) :- GetReparse(d, p, version);
    if version >= TRAILING_BLOCK_VERSION then
      var (block, p2) :- GetRaw(d, p1, TRAILING_BLOCK_BYTES);
      Ok((Versioned(r.0, r.1, block), p2))
    else Ok((Versioned(r.0, r.1, []), p1))
  }

  function Assemble(l: NodeLocs, f: Fixed, v: Versioned): Node {
    var meta := Meta(
      l.computerOSType, l.acl, l.xattrs, f.itemSize, f.containedFilesCount, f.times,
      f.username, f.groupName, f.deleted, f.mac, f.winAttrs,
      v.reparseTag, v.reparseIsDirectory, v.trailingBlock, 0, 0);
    if l.tree.Some? then TreeNode(l.tree.value, meta) else FileNode(l.data, meta)
  }

  function GetNode(d: bytes, p: nat, version: int): Result<(Node, nat)> {
    var (l, p1) :- GetNodeLocs(d, p);
    var (f, p2) :- GetFixed(d, p1);
    var (v, p3) :- GetVersioned(d, p2, version);
    Ok((Assemble(l, f, v), p3))
  }

  function GetChildren(d: bytes, p: nat, count: nat, version: int): Result<(seq<TreeChild>, nat)> {
    if count == 0 then Ok(([], p))
    else
      var (cs, p1) :- GetChildren(d, p, count - 1, version);
      var (name, p2) :- GetString(d, p1);
      var (node, p3) :- GetNode(d, p2, version);
      Ok((cs + [TreeChild(OrEmpty(name), node)], p3))
  }

  /** parse_tree: bytes after the last child are ignored. */
  function ParseTree(d: bytes): Result<Tree> {
    var (version, p1) :- GetUint(d, 0, 4);
    var (count, p2) :- GetUint(d, p1, 8);
    var (cs, _) :- GetChildren(d, p2, count, version);
    Ok(Tree(cs, version))
  }
}
