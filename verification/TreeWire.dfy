/** The tree format as one flat table of fields, and that the writer follows it. */
module TreeWire {
  import opened Wrappers
  import opened Bytes
  import opened TreeFormat
  import opened TreeRoundTrip

  /**
   A field on the wire: an integer modulo its width, a flag byte, a text behind its presence byte, or bytes as they are.
  */
  datatype Field = U32(v: int) | U64(v: int) | Flag(b: bool) | Text(t: Option<bytes>) | Raw(r: bytes)

  function Wire(f: Field): bytes {
    match f
    case U32(v) => BigEndian(v % 0x1_0000_0000, 4)
    case U64(v) => BigEndian(v % 0x1_0000_0000_0000_0000, 8)
    case Flag(b) => [if b then 1 else 0]
    case Text(t) => if t.None? then [0] else [1] + BigEndian(|t.value| % 0x1_0000_0000_0000_0000, 8) + t.value
    case Raw(r) => r
  }

  function WireAll(fs: seq<Field>): bytes {
    if fs == [] then [] else WireAll(fs[..|fs| - 1]) + Wire(fs[|fs| - 1])
  }

  function LocFields(l: BlobLoc): seq<Field> {
    [Text(Some(l.blobIdentifier)), Flag(l.isPacked), Flag(l.isLargePack), Text(Some(l.relativePath)),
     U64(l.offset), U64(l.length), Flag(l.stretchEncryptionKey), U32(l.compressionType)]
  }

  function LocsFields(ls: seq<BlobLoc>): seq<Field> {
    if ls == [] then [] else LocsFields(ls[..|ls| - 1]) + LocFields(ls[|ls| - 1])
  }

  /** An optional loc behind its flag. */
  function OptionalFields(l: Option<BlobLoc>): seq<Field> {
    [Flag(l.Some?)] + if l.Some? then LocFields(l.value) else []
  }

  /** The head of a node: its kind, and the locs of its contents. */
  function HeadFields(n: Node): seq<Field> {
    var data := if n.FileNode? then n.dataBlobLocs else [];
    OptionalFields(if n.TreeNode? then Some(n.treeBlobLoc) else None)
    + [U32(n.meta.computerOSType), U64(|data|)] + LocsFields(data)
    + OptionalFields(n.meta.aclBlobLoc)
    + [U64(|n.meta.xattrsBlobLocs|)] + LocsFields(n.meta.xattrsBlobLocs)
  }

  function TimesFields(t: Times): seq<Field> {
    [U64(t.mtimeSec), U64(t.mtimeNsec), U64(t.ctimeSec), U64(t.ctimeNsec)] + [U64(t.createSec), U64(t.createNsec)]
  }

  function MacFields(m: MacStat): seq<Field> {
    [U32(m.dev), U64(m.ino), U32(m.mode), U32(m.nlink)] + [U32(m.uid), U32(m.gid), U32(m.rdev), U32(m.flags)]
  }

  function MetaFields(m: Meta): seq<Field> {
    [U64(m.itemSize), U64(m.containedFilesCount)] + TimesFields(m.times)
    + [Text(m.username), Text(m.groupName)] + [Flag(m.deleted)] + MacFields(m.mac) + [U32(m.winAttrs)]
  }

  /** The reparse fields from version 2 on; from version 4 on the block, preserved or made from a time. */
  function LateFields(m: Meta, version: int): seq<Field> {
    (if version >= 2 then [U32(m.reparseTag), Flag(m.reparseIsDirectory)] else [])
    + if version < 4 then []
      else if |m.trailingBlock| == 38 then [Raw(m.trailingBlock)]
      else if m.scannedAtSec != 0 || m.scannedAtNsec != 0
      then [U64(m.scannedAtSec), U64(m.scannedAtNsec), U64(0x0100_0000), Raw(seq(14, _ => 0))]
      else [U64(m.times.createSec), U64(m.times.createNsec), U64(0x0100_0000), Raw(seq(14, _ => 0))]
  }

  function NodeFields(n: Node, version: int): seq<Field> {
    HeadFields(n) + MetaFields(n.meta) + LateFields(n.meta, version)
  }

  function ChildrenFields(cs: seq<TreeChild>, version: int): seq<Field> {
    if cs == [] then []
    else
      var c := cs[|cs| - 1];
      ChildrenFields(cs[..|cs| - 1], version) + [Text(Some(c.name))] + NodeFields(c.node, version)
  }

  function TreeFields(t: Tree, version: int): seq<Field> {
    [U32(version), U64(|t.children|)] + ChildrenFields(t.children, version)
  }

  /* ---- The writer follows the table ---- */

  lemma {:induction false} WireJoins(a: seq<Field>, b: seq<Field>)
    ensures WireAll(a + b) == WireAll(a) + WireAll(b)
    decreases |b|
  {
    hide Wire;
    if b == [] {
      assert a + b == a;
    } else {
      WireJoins(a, b[..|b| - 1]);
      assert (a + b)[..|a + b| - 1] == a + b[..|b| - 1];
    }
  }

  lemma WireOne(f: Field)
    ensures WireAll([f]) == Wire(f)
  {
    hide Wire;
    assert [f][..0] == [];
  }

  lemma WireTwo(f: Field, g: Field)
    ensures WireAll([f, g]) == Wire(f) + Wire(g)
  {
    hide Wire;
    WireOne(f);
    assert [f, g][..1] == [f];
  }

  lemma WireFour(f: Field, g: Field, h: Field, i: Field)
    ensures WireAll([f, g, h, i]) == Wire(f) + Wire(g) + Wire(h) + Wire(i)
  {
    hide Wire;
    WireTwo(f, g);
    assert [f, g, h, i][..3] == [f, g, h] && [f, g, h][..2] == [f, g];
  }

  lemma LocFollows(l: BlobLoc)
    ensures WireAll(LocFields(l)) == WriteBlobLoc(l)
  {
    var fs := LocFields(l);
    assert fs == fs[..4] + fs[4..];
    WireJoins(fs[..4], fs[4..]);
    WireFour(fs[0], fs[1], fs[2], fs[3]);
    WireFour(fs[4], fs[5], fs[6], fs[7]);
    hide WireAll;
    assert fs[..4] == [fs[0], fs[1], fs[2], fs[3]] && fs[4..] == [fs[4], fs[5], fs[6], fs[7]];
    hide BigEndian;
  }

  lemma {:induction false} LocsFollow(ls: seq<BlobLoc>)
    ensures WireAll(LocsFields(ls)) == WriteBlobLocs(ls)
  {
    hide LocFields, WriteBlobLoc;
    if ls != [] {
      LocsFollow(ls[..|ls| - 1]);
      LocFollows(ls[|ls| - 1]);
      WireJoins(LocsFields(ls[..|ls| - 1]), LocFields(ls[|ls| - 1]));
    }
  }

  lemma OptionalFollows(l: Option<BlobLoc>)
    ensures WireAll(OptionalFields(l)) == WriteOptionalLoc(l)
  {
    hide LocFields, WriteBlobLoc, WireAll;
    WireOne(Flag(l.Some?));
    if l.Some? {
      LocFollows(l.value);
      WireJoins([Flag(true)], LocFields(l.value));
    } else {
      assert OptionalFields(l) == [Flag(false)];
    }
  }

  /** The locs of a node and their number. */
  lemma CountedLocsFollow(front: seq<Field>, ls: seq<BlobLoc>)
    ensures WireAll(front + LocsFields(ls)) == WireAll(front) + WriteBlobLocs(ls)
  {
    hide WireAll, LocsFields, WriteBlobLocs;
    LocsFollow(ls);
    WireJoins(front, LocsFields(ls));
  }

  lemma HeadFollows(n: Node)
    ensures WireAll(HeadFields(n)) == WriteNodeLocs(n)
  {
    var data := if n.FileNode? then n.dataBlobLocs else [];
    var tree := if n.TreeNode? then Some(n.treeBlobLoc) else None;
    var (os, count, xattrs) := (U32(n.meta.computerOSType), U64(|data|), n.meta.xattrsBlobLocs);
    var a := OptionalFields(tree) + [os, count];
    var b := a + LocsFields(data) + OptionalFields(n.meta.aclBlobLoc);
    var c := b + [U64(|xattrs|)];
    hide WireAll, LocsFields, WriteBlobLocs, OptionalFields, BigEndian;
    assert HeadFields(n) == c + LocsFields(xattrs);
    OptionalFollows(tree);
    WireTwo(os, count);
    WireJoins(OptionalFields(tree), [os, count]);
    CountedLocsFollow(a, data);
    OptionalFollows(n.meta.aclBlobLoc);
    WireJoins(a + LocsFields(data), OptionalFields(n.meta.aclBlobLoc));
    WireOne(U64(|xattrs|));
    WireJoins(b, [U64(|xattrs|)]);
    CountedLocsFollow(c, xattrs);
    HeadGrouped(n, tree, data);
  }

  lemma HeadGrouped(n: Node, tree: Option<BlobLoc>, data: seq<BlobLoc>)
    requires data == if n.FileNode? then n.dataBlobLocs else []
    requires tree == if n.TreeNode? then Some(n.treeBlobLoc) else None
    ensures WriteNodeLocs(n)
         == WriteOptionalLoc(tree) + (Wire(U32(n.meta.computerOSType)) + Wire(U64(|data|))) + WriteBlobLocs(data)
            + WriteOptionalLoc(n.meta.aclBlobLoc) + Wire(U64(|n.meta.xattrsBlobLocs|))
            + WriteBlobLocs(n.meta.xattrsBlobLocs)
  {
    hide WriteNodeLocs, WriteOptionalLoc, WriteBlobLocs, BigEndian;
    var (os, count, xattrs) := (WriteUint32(n.meta.computerOSType), WriteUint64(|data|), n.meta.xattrsBlobLocs);
    NodeLocsGrouped(n);
    Grouped(WriteOptionalLoc(tree), os, count, WriteBlobLocs(data), WriteOptionalLoc(n.meta.aclBlobLoc),
            WriteUint64(|xattrs|), WriteBlobLocs(xattrs));
  }

  lemma Grouped(a: bytes, b: bytes, c: bytes, d: bytes, e: bytes, f: bytes, g: bytes)
    ensures (a + b + c + d) + (e + f + g) == a + (b + c) + d + e + f + g
  {}

  lemma TimesFollow(t: Times)
    ensures WireAll(TimesFields(t)) == WriteTimes(t)
  {
    hide WireAll, BigEndian;
    var (a, b) := ([U64(t.mtimeSec), U64(t.mtimeNsec), U64(t.ctimeSec), U64(t.ctimeNsec)],
                   [U64(t.createSec), U64(t.createNsec)]);
    WireFour(a[0], a[1], a[2], a[3]);
    WireTwo(b[0], b[1]);
    WireJoins(a, b);
  }

  lemma MacFollows(m: MacStat)
    ensures WireAll(MacFields(m)) == WriteMac(m)
  {
    hide WireAll, BigEndian;
    var (a, b) := ([U32(m.dev), U64(m.ino), U32(m.mode), U32(m.nlink)],
                   [U32(m.uid), U32(m.gid), U32(m.rdev), U32(m.flags)]);
    WireFour(a[0], a[1], a[2], a[3]);
    WireFour(b[0], b[1], b[2], b[3]);
    WireJoins(a, b);
  }

  /** The sizes and times of a node, and its owner. */
  lemma OwnedFollows(m: Meta)
    ensures WireAll([U64(m.itemSize), U64(m.containedFilesCount)] + TimesFields(m.times))
         == WriteUint64(m.itemSize) + WriteUint64(m.containedFilesCount) + WriteTimes(m.times)
    ensures WireAll([Text(m.username), Text(m.groupName)] + [Flag(m.deleted)])
         == WriteString(m.username) + WriteString(m.groupName) + WriteBool(m.deleted)
  {
    hide WireAll, BigEndian, TimesFields, WriteTimes;
    var (size, count, user, grp) := (U64(m.itemSize), U64(m.containedFilesCount), Text(m.username), Text(m.groupName));
    WireTwo(size, count);
    TimesFollow(m.times);
    WireJoins([size, count], TimesFields(m.times));
    WireTwo(user, grp);
    WireOne(Flag(m.deleted));
    WireJoins([user, grp], [Flag(m.deleted)]);
  }

  lemma MetaFollows(m: Meta)
    ensures WireAll(MetaFields(m)) == WriteFixed(m)
  {
    hide WireAll, BigEndian, TimesFields, MacFields, WriteTimes, WriteMac, WriteString, Wire;
    var a := [U64(m.itemSize), U64(m.containedFilesCount)] + TimesFields(m.times);
    var b := [Text(m.username), Text(m.groupName)] + [Flag(m.deleted)];
    OwnedFollows(m);
    WireJoins(a, b);
    MacFollows(m.mac);
    WireJoins(a + b, MacFields(m.mac));
    WinFollows(m.winAttrs);
    WireJoins(a + b + MacFields(m.mac), [U32(m.winAttrs)]);
    assert MetaFields(m) == a + b + MacFields(m.mac) + [U32(m.winAttrs)];
  }

  lemma WinFollows(v: int)
    ensures WireAll([U32(v)]) == WriteUint32(v)
  {
    WireOne(U32(v));
  }

  /** The version-4 block as fields. */
  lemma BlockFollows(m: Meta)
    ensures WireAll(LateFields(m, 4)[2..]) == TrailingBlock(m)
  {
    hide WireAll, BigEndian;
    var fs := LateFields(m, 4)[2..];
    if |m.trailingBlock| == 38 {
      WireOne(Raw(m.trailingBlock));
    } else {
      WireFour(fs[0], fs[1], fs[2], fs[3]);
    }
  }

  lemma LateFollows(m: Meta, version: int)
    ensures WireAll(LateFields(m, version)) == WriteVersioned(m, version)
  {
    var (front, block) := ([U32(m.reparseTag), Flag(m.reparseIsDirectory)], LateFields(m, 4)[2..]);
    NothingWired();
    WireTwo(front[0], front[1]);
    BlockFollows(m);
    WireJoins(front, block);
    hide WireAll, BigEndian, TrailingBlock;
    if version >= 4 {
      assert LateFields(m, version) == front + block;
    } else if version >= 2 {
      assert LateFields(m, version) == front;
    }
  }

  lemma NodeFollows(n: Node, version: int)
    ensures WireAll(NodeFields(n, version)) == WriteNode(n, version)
  {
    hide WireAll, HeadFields, MetaFields, LateFields, WriteNodeLocs, WriteFixed, WriteVersioned;
    HeadFollows(n);
    MetaFollows(n.meta);
    LateFollows(n.meta, version);
    WireJoins(HeadFields(n), MetaFields(n.meta));
    WireJoins(HeadFields(n) + MetaFields(n.meta), LateFields(n.meta, version));
  }

  lemma {:induction false} ChildrenFollow(cs: seq<TreeChild>, version: int)
    ensures WireAll(ChildrenFields(cs, version)) == WriteChildren(cs, version)
  {
    hide NodeFields, WriteNode, WireAll, BigEndian;
    if cs == [] {
      NothingWired();
    } else {
      var (init, c) := (cs[..|cs| - 1], cs[|cs| - 1]);
      ChildrenFollow(init, version);
      NodeFollows(c.node, version);
      WireOne(Text(Some(c.name)));
      WireJoins(ChildrenFields(init, version), [Text(Some(c.name))]);
      WireJoins(ChildrenFields(init, version) + [Text(Some(c.name))], NodeFields(c.node, version));
    }
  }

  lemma NothingWired()
    ensures WireAll([]) == []
  {}

  /** Main result on the format: a written tree is its table of fields, one after the other. */
  lemma WriteIsTable(t: Tree, version: int)
    ensures WriteTree(t, version) == WireAll(TreeFields(t, version))
  {
    hide WireAll, BigEndian, ChildrenFields, WriteChildren;
    ChildrenFollow(t.children, version);
    WireTwo(U32(version), U64(|t.children|));
    WireJoins([U32(version), U64(|t.children|)], ChildrenFields(t.children, version));
  }
}
