/**
 The version-gated records of an Arq 5 Tree: what the parser makes of a byte string, and an encoder in the
 parser's field order. The fields of a stat block are kept as a row, in wire order.
*/
module Arq5Tree {
  import opened Wrappers
  import opened Bytes
  import opened TreeFormat
  import TreeRoundTrip
  import opened Arq5Wire

  const GZIP: int := 1

  datatype BlobKey = BlobKey(sha1: bytes, stretch: bool, storageType: int, archiveId: Option<bytes>, archiveSize: int,
                             uploaded: Option<int>, compressionType: int)

  datatype Node = Node(isTree: bool, missingItems: bool, compression: Compression, keys: seq<BlobKey>, dataSize: int,
                       xattrsKey: Option<BlobKey>, xattrsSize: int, aclKey: Option<BlobKey>, stat: seq<Value>)

  /** Compression types of the data, the xattrs and the ACL. */
  datatype Compression = Compression(data: int, xattrs: int, acl: int)

  datatype Entry = Entry(name: bytes, node: Node)

  /**
   uid, gid, mode; mtime and flags; Finder flags, type, creator, hidden; dev, ino, nlink, rdev; ctime, create time,
   blocks; block size.
  */
  const NODE_STAT: Schema := [Int32, Int32, Int32, Int64, Int64, Int64, Int32, Int32, Text, Text, Bool,
                              Int32, Int32, Uint32, Int32, Int64, Int64, Int64, Int64, Int64, Uint32]

  /* ---- Blob keys ---- */

  function KeySchema(v: nat): Schema {
    [Text] + (if v >= 14 then [Bool] else []) + (if v >= 17 then [Uint32, Text, Uint64, Date] else [])
  }

  /** A row's values are of the kinds its schema asks for. */
  ghost predicate Kinds(vs: seq<Value>, ks: Schema) {
    |vs| == |ks| && forall i :: 0 <= i < |ks| ==> Kind(vs[i], ks[i])
  }

  /** What parse_blobkey returns: None for a null SHA-1, and defaults for what the version does not store. */
  function KeyOf(vs: seq<Value>, v: nat, compressionType: int): Option<BlobKey>
    requires Kinds(vs, KeySchema(v))
  {
    if vs[0].text.None? then None
    else if v >= 17 then Some(BlobKey(vs[0].text.value, vs[1].b, vs[2].n, vs[3].text, vs[4].n, vs[5].millis,
        compressionType))
    else Some(BlobKey(vs[0].text.value, v >= 14 && vs[1].b, 1, None, 0, None, compressionType))
  }

  function GetKey(d: bytes, p: nat, v: nat, compressionType: int): Result<(Option<BlobKey>, nat)> {
    RowShape(d, p, KeySchema(v));
    var (vs, q) :- GetRow(d, p, KeySchema(v));
    Ok((KeyOf(vs, v, compressionType), q))
  }

  const NULL_KEY := BlobKey([], false, 1, None, 0, None, 0)

  function KeyRow(k: Option<BlobKey>, v: nat): seq<Value> {
    var b := if k.Some? then k.value else NULL_KEY;
    [VText(if k.Some? then Some(b.sha1) else None)] + (if v >= 14 then [VBool(b.stretch)] else [])
    + (if v >= 17 then [VInt(b.storageType), VText(b.archiveId), VInt(b.archiveSize), VDate(b.uploaded)] else [])
  }

  /** The key holds only what its version stores, and inherits its compression type. */
  predicate KeyFits(k: Option<BlobKey>, v: nat, compressionType: int) {
    k.Some? ==>
      && k.value.compressionType == compressionType && |k.value.sha1| < TWO_TO_64
      && (v < 14 ==> !k.value.stretch)
      && (if v < 17 then k.value == k.value.(storageType := 1, archiveId := None, archiveSize := 0, uploaded := None)
          else Conforms([VInt(k.value.storageType), VText(k.value.archiveId), VInt(k.value.archiveSize),
          VDate(k.value.uploaded)],
                        [Uint32, Text, Uint64, Date]))
  }

  /** Rows put end to end conform to schemas put end to end. */
  lemma JoinRows(vs: seq<Value>, ks: Schema, ws: seq<Value>, js: Schema)
    requires Conforms(vs, ks) && Conforms(ws, js)
    ensures Conforms(vs + ws, ks + js)
  {
    hide Fits;
  }

  lemma RowKinds(vs: seq<Value>, ks: Schema)
    requires Conforms(vs, ks)
    ensures Kinds(vs, ks)
  {}

  lemma KeyRowFits(k: Option<BlobKey>, v: nat, compressionType: int)
    requires KeyFits(k, v, compressionType)
    ensures Conforms(KeyRow(k, v), KeySchema(v)) && Kinds(KeyRow(k, v), KeySchema(v))
    ensures KeyOf(KeyRow(k, v), v, compressionType) == k
  {
    var b := if k.Some? then k.value else NULL_KEY;
    var a0 := [VText(if k.Some? then Some(b.sha1) else None)];
    var (a1, k1) := (if v >= 14 then [VBool(b.stretch)] else [], if v >= 14 then [Bool] else []);
    var (a2, k2) := (if v >= 17 then KeyTail(k) else [], if v >= 17 then [Uint32, Text, Uint64, Date] else []);
    assert Conforms(a2, k2);
    JoinRows(a0, [Text], a1, k1);
    JoinRows(a0 + a1, [Text] + k1, a2, k2);
    hide Conforms, Fits;
    RowKinds(KeyRow(k, v), KeySchema(v));
    if v >= 17 {
      assert KeyRow(k, v) == [a0[0], a1[0], a2[0], a2[1], a2[2], a2[3]];
    }
  }

  function KeyTail(k: Option<BlobKey>): seq<Value> {
    var b := if k.Some? then k.value else NULL_KEY;
    [VInt(b.storageType), VText(b.archiveId), VInt(b.archiveSize), VDate(b.uploaded)]
  }

  function WriteKey(k: Option<BlobKey>, v: nat, compressionType: int): bytes
    requires KeyFits(k, v, compressionType)
  {
    KeyRowFits(k, v, compressionType);
    WriteRow(KeyRow(k, v), KeySchema(v))
  }

  /** parse_blobkey on an encoded key, whatever follows. */
  lemma ReadKey(d: bytes, p: nat, k: Option<BlobKey>, v: nat, compressionType: int)
    requires KeyFits(k, v, compressionType) && At(d, p, WriteKey(k, v, compressionType))
    ensures GetKey(d, p, v, compressionType) == Ok((k, p + |WriteKey(k, v, compressionType)|))
  {
    hide GetRow, WriteRow, KeyRow, KeySchema, KeyOf, KeyFits, Conforms, At;
    KeyRowFits(k, v, compressionType);
    ReadRow(d, p, KeyRow(k, v), KeySchema(v));
  }

  lemma {:induction false} ReadKeys(d: bytes, p: nat, keys: seq<BlobKey>, v: nat, compressionType: int)
    requires KeysFit(keys, v, compressionType) && At(d, p, WriteKeys(keys, v, compressionType))
    ensures GetKeys(d, p, |keys|, v, compressionType) == Ok((keys, p + |WriteKeys(keys, v, compressionType)|))
    decreases |keys|
  {
    hide KeyFits, GetKey, WriteKey, At;
    if keys != [] {
      var n := |keys| - 1;
      WriteKeysStep(keys, v, compressionType);
      hide WriteKeys;
      var (init, last) := (WriteKeys(keys[..n], v, compressionType), WriteKey(Some(keys[n]), v, compressionType));
      Split2(d, p, init, last);
      ReadKeys(d, p, keys[..n], v, compressionType);
      ReadKey(d, p + |init|, Some(keys[n]), v, compressionType);
      assert keys == keys[..n] + [keys[n]];
    }
  }

  lemma WriteKeysStep(keys: seq<BlobKey>, v: nat, compressionType: int)
    requires KeysFit(keys, v, compressionType) && keys != []
    ensures var n := |keys| - 1;
            KeysFit(keys[..n], v, compressionType) && KeyFits(Some(keys[n]), v, compressionType)
            && WriteKeys(keys, v, compressionType)
            == WriteKeys(keys[..n], v, compressionType) + WriteKey(Some(keys[n]), v, compressionType)
  {
    hide KeyFits, WriteKey;
  }

  predicate KeysFit(keys: seq<BlobKey>, v: nat, compressionType: int) {
    forall i :: 0 <= i < |keys| ==> KeyFits(Some(keys[i]), v, compressionType)
  }

  function WriteKeys(keys: seq<BlobKey>, v: nat, compressionType: int): bytes
    requires KeysFit(keys, v, compressionType)
  {
    if keys == [] then []
    else WriteKeys(keys[..|keys| - 1], v, compressionType) + WriteKey(Some(keys[|keys| - 1]), v, compressionType)
  }

  /** The data blob keys: null ones are dropped. */
  function GetKeys(d: bytes, p: nat, count: nat, v: nat, compressionType: int): Result<(seq<BlobKey>, nat)> {
    if count == 0 then Ok(([], p))
    else
      var (ks, q) :- GetKeys(d, p, count - 1, v, compressionType);
      var (k, q2) :- GetKey(d, q, v, compressionType);
      Ok((if k.Some? then ks + [k.value] else ks, q2))
  }

  /* ---- Nodes ---- */

  /** The fields before a node's blob keys. */
  datatype Head = Head(isTree: bool, missingItems: bool, compression: Compression, count: int)

  function CompressionSchema(v: nat, fields: nat): Schema {
    if v < 12 then [] else if v <= 18 then seq(fields, _ => Bool) else seq(fields, _ => Int32)
  }

  /** Bools mean gzip or none; before version 12 nothing is compressed. */
  function CompressionOf(x: Value): int
    requires x.VBool? || x.VInt?
  {
    if x.VBool? then (if x.b then GZIP else 0) else x.n
  }

  function CompressionValue(c: int, v: nat): Value {
    if v <= 18 then VBool(c == GZIP) else VInt(c)
  }

  predicate CompressionFits(c: int, v: nat) {
    if v < 12 then c == 0 else if v <= 18 then c == 0 || c == GZIP else -0x8000_0000 <= c < 0x8000_0000
  }

  function FlagsSchema(v: nat): Schema { if v >= 18 then [Bool, Bool] else [Bool] }

  function GetHead(d: bytes, p: nat, v: nat): Result<(Head, nat)> {
    RowShape(d, p, FlagsSchema(v));
    var (flags, p1) :- GetRow(d, p, FlagsSchema(v));
    RowShape(d, p1, CompressionSchema(v, 3));
    var (cs, p2) :- GetRow(d, p1, CompressionSchema(v, 3));
    var (count, p3) :- GetInt32(d, p2);
    var compression := if v < 12 then Compression(0, 0, 0)
                       else Compression(CompressionOf(cs[0]), CompressionOf(cs[1]), CompressionOf(cs[2]));
    Ok((Head(flags[0].b, v >= 18 && flags[1].b, compression, count), p3))
  }

  predicate HeadFits(h: Head, v: nat) {
    && (v < 18 ==> !h.missingItems)
    && CompressionFits(h.compression.data, v) && CompressionFits(h.compression.xattrs, v)
    && CompressionFits(h.compression.acl, v)
    && 0 <= h.count < 0x8000_0000
  }

  function FlagsRow(h: Head, v: nat): seq<Value> {
    if v >= 18 then [VBool(h.isTree), VBool(h.missingItems)] else [VBool(h.isTree)]
  }

  function CompressionRow(c: Compression, v: nat): seq<Value> {
    if v < 12 then [] else [CompressionValue(c.data, v), CompressionValue(c.xattrs, v), CompressionValue(c.acl, v)]
  }

  lemma HeadRowsFit(h: Head, v: nat)
    requires HeadFits(h, v)
    ensures Conforms(FlagsRow(h, v), FlagsSchema(v))
        && Conforms(CompressionRow(h.compression, v), CompressionSchema(v, 3))
  {}

  function WriteHead(h: Head, v: nat): bytes
    requires HeadFits(h, v)
  {
    HeadRowsFit(h, v);
    WriteRow(FlagsRow(h, v), FlagsSchema(v)) + WriteRow(CompressionRow(h.compression, v), CompressionSchema(v, 3))
        + WriteInt32(h.count)
  }

  lemma ReadHead(d: bytes, p: nat, h: Head, v: nat)
    requires HeadFits(h, v) && At(d, p, WriteHead(h, v))
    ensures GetHead(d, p, v) == Ok((h, p + |WriteHead(h, v)|))
  {
    hide WriteRow, GetRow, At, Fits, Conforms, WriteInt32, GetInt32;
    HeadRowsFit(h, v);
    var (a, b) := (WriteRow(FlagsRow(h, v), FlagsSchema(v)),
        WriteRow(CompressionRow(h.compression, v), CompressionSchema(v, 3)));
    Split3(d, p, a, b, WriteInt32(h.count));
    ReadRow(d, p, FlagsRow(h, v), FlagsSchema(v));
    ReadRow(d, p + |a|, CompressionRow(h.compression, v), CompressionSchema(v, 3));
    TreeRoundTrip.ReadInt32(d, p + |a| + |b|, h.count);
  }

  /** The xattr and ACL keys, which nodes and trees store alike. */
  datatype Attributes = Attributes(xattrsKey: Option<BlobKey>, xattrsSize: int, aclKey: Option<BlobKey>)

  function GetAttributes(d: bytes, p: nat, v: nat, xattrs: int, acl: int): Result<(Attributes, nat)> {
    var (x, p1) :- GetKey(d, p, v, xattrs);
    var (size, p2) :- GetUint(d, p1, 8);
    var (a, p3) :- GetKey(d, p2, v, acl);
    Ok((Attributes(x, size, a), p3))
  }

  predicate AttributesFit(a: Attributes, v: nat, xattrs: int, acl: int) {
    KeyFits(a.xattrsKey, v, xattrs) && 0 <= a.xattrsSize < TWO_TO_64 && KeyFits(a.aclKey, v, acl)
  }

  function WriteAttributes(a: Attributes, v: nat, xattrs: int, acl: int): bytes
    requires AttributesFit(a, v, xattrs, acl)
  {
    WriteKey(a.xattrsKey, v, xattrs) + WriteUint64(a.xattrsSize) + WriteKey(a.aclKey, v, acl)
  }

  lemma ReadAttributes(d: bytes, p: nat, a: Attributes, v: nat, xattrs: int, acl: int)
    requires AttributesFit(a, v, xattrs, acl) && At(d, p, WriteAttributes(a, v, xattrs, acl))
    ensures GetAttributes(d, p, v, xattrs, acl) == Ok((a, p + |WriteAttributes(a, v, xattrs, acl)|))
  {
    hide At, KeyFits, WriteKey, GetKey, WriteUint64, GetUint;
    var (x, s, l) := (WriteKey(a.xattrsKey, v, xattrs), WriteUint64(a.xattrsSize), WriteKey(a.aclKey, v, acl));
    Split3(d, p, x, s, l);
    ReadKey(d, p, a.xattrsKey, v, xattrs);
    TreeRoundTrip.ReadUint64(d, p + |x|, a.xattrsSize);
    SmallMod(a.xattrsSize, TWO_TO_64);
    ReadKey(d, p + |x| + |s|, a.aclKey, v, acl);
  }

  /** Two SHA-1 slots that versions before 18 hold and nobody uses. */
  function GetUnused(d: bytes, p: nat, v: nat): Result<((), nat)> {
    if v >= 18 then Ok(((), p))
    else
      var (_, p1) :- GetKey(d, p, v, 0);
      var (_, p2) :- GetKey(d, p1, v, 0);
      Ok(((), p2))
  }

  function WriteUnused(v: nat): bytes {
    if v >= 18 then [] else WriteKey(None, v, 0) + WriteKey(None, v, 0)
  }

  lemma ReadUnused(d: bytes, p: nat, v: nat)
    requires At(d, p, WriteUnused(v))
    ensures GetUnused(d, p, v) == Ok(((), p + |WriteUnused(v)|))
  {
    hide At, WriteKey, GetKey;
    if v < 18 {
      var w := WriteKey(None, v, 0);
      Split2(d, p, w, w);
      ReadKey(d, p, None, v, 0);
      ReadKey(d, p + |w|, None, v, 0);
    }
  }

  /** range(count) runs for no negative count. */
  function Rounds(count: int): nat { if count < 0 then 0 else count }

  /** parse_node */
  function GetNode(d: bytes, p: nat, v: nat): Result<(Node, nat)> {
    var (h, p1) :- GetHead(d, p, v);
    var (keys, p2) :- GetKeys(d, p1, Rounds(h.count), v, h.compression.data);
    var (size, p3) :- GetUint(d, p2, 8);
    var (_, p4) :- GetUnused(d, p3, v);
    var (a, p5) :- GetAttributes(d, p4, v, h.compression.xattrs, h.compression.acl);
    var (stat, p6) :- GetRow(d, p5, NODE_STAT);
    Ok((Node(h.isTree, h.missingItems, h.compression, keys, size, a.xattrsKey, a.xattrsSize, a.aclKey, stat), p6))
  }

  function HeadOf(n: Node): Head { Head(n.isTree, n.missingItems, n.compression, |n.keys|) }

  function AttributesOf(n: Node): Attributes { Attributes(n.xattrsKey, n.xattrsSize, n.aclKey) }

  /** The node is one its version can store. */
  predicate NodeFits(n: Node, v: nat) {
    && HeadFits(HeadOf(n), v) && KeysFit(n.keys, v, n.compression.data) && 0 <= n.dataSize < TWO_TO_64
    && AttributesFit(AttributesOf(n), v, n.compression.xattrs, n.compression.acl) && Conforms(n.stat, NODE_STAT)
  }

  function WriteNode(n: Node, v: nat): bytes
    requires NodeFits(n, v)
  {
    (WriteHead(HeadOf(n), v) + WriteKeys(n.keys, v, n.compression.data) + WriteUint64(n.dataSize) + WriteUnused(v))
    + (WriteAttributes(AttributesOf(n), v, n.compression.xattrs, n.compression.acl) + WriteRow(n.stat, NODE_STAT))
  }

  /** parse_node on an encoded node, in every version and whatever follows. */
  lemma ReadNode(d: bytes, p: nat, n: Node, v: nat)
    requires NodeFits(n, v) && At(d, p, WriteNode(n, v))
    ensures GetNode(d, p, v) == Ok((n, p + |WriteNode(n, v)|))
  {
    hide At, HeadFits, KeysFit, AttributesFit, Conforms, WriteHead, WriteKeys, WriteUint64, WriteUnused,
         WriteAttributes, WriteRow;
    hide GetHead, GetKeys, GetUint, GetUnused, GetAttributes, GetRow;
    var c := n.compression;
    var (h, k, s, u) := (WriteHead(HeadOf(n), v), WriteKeys(n.keys, v, c.data), WriteUint64(n.dataSize),
        WriteUnused(v));
    var (a, st) := (WriteAttributes(AttributesOf(n), v, c.xattrs, c.acl), WriteRow(n.stat, NODE_STAT));
    Split2(d, p, h + k + s + u, a + st);
    Split4(d, p, h, k, s, u);
    Split2(d, p + |h| + |k| + |s| + |u|, a, st);
    ReadHead(d, p, HeadOf(n), v);
    ReadKeys(d, p + |h|, n.keys, v, c.data);
    TreeRoundTrip.ReadUint64(d, p + |h| + |k|, n.dataSize);
    SmallMod(n.dataSize, TWO_TO_64);
    ReadUnused(d, p + |h| + |k| + |s|, v);
    ReadAttributes(d, p + |h| + |k| + |s| + |u|, AttributesOf(n), v, c.xattrs, c.acl);
    ReadRow(d, p + |h| + |k| + |s| + |u| + |a|, n.stat, NODE_STAT);
  }

  /* ---- Entries ---- */

  function GetEntries(d: bytes, p: nat, count: nat, v: nat): Result<(seq<Entry>, nat)> {
    if count == 0 then Ok(([], p))
    else
      var (es, p1) :- GetEntries(d, p, count - 1, v);
      var (name, p2) :- GetString(d, p1);
      var (n, p3) :- GetNode(d, p2, v);
      Ok((es + [Entry(OrEmpty(name), n)], p3))
  }

  predicate EntryFits(e: Entry, v: nat) { |e.name| < TWO_TO_64 && NodeFits(e.node, v) }

  predicate EntriesFit(es: seq<Entry>, v: nat) {
    forall i :: 0 <= i < |es| ==> EntryFits(es[i], v)
  }

  function WriteEntries(es: seq<Entry>, v: nat): bytes
    requires EntriesFit(es, v)
  {
    if es == [] then []
    else
      var e := es[|es| - 1];
      WriteEntries(es[..|es| - 1], v) + (WriteString(Some(e.name)) + WriteNode(e.node, v))
  }

  lemma WriteEntriesStep(es: seq<Entry>, v: nat)
    requires EntriesFit(es, v) && es != []
    ensures var (init, e) := (es[..|es| - 1], es[|es| - 1]);
            EntriesFit(init, v) && EntryFits(e, v)
            && WriteEntries(es, v) == WriteEntries(init, v) + (WriteString(Some(e.name)) + WriteNode(e.node, v))
  {
    hide NodeFits, WriteNode, WriteString;
  }

  lemma {:induction false} ReadEntries(d: bytes, p: nat, es: seq<Entry>, v: nat)
    requires EntriesFit(es, v) && At(d, p, WriteEntries(es, v))
    ensures GetEntries(d, p, |es|, v) == Ok((es, p + |WriteEntries(es, v)|))
    decreases |es|
  {
    hide At, NodeFits, WriteNode, WriteString, GetString, GetNode;
    if es != [] {
      var (init, e) := (es[..|es| - 1], es[|es| - 1]);
      WriteEntriesStep(es, v);
      hide WriteEntries;
      var (a, s, w) := (WriteEntries(init, v), WriteString(Some(e.name)), WriteNode(e.node, v));
      Split2(d, p, a, s + w);
      Split2(d, p + |a|, s, w);
      ReadEntries(d, p, init, v);
      TreeRoundTrip.ReadString(d, p + |a|, Some(e.name));
      ReadNode(d, p + |a| + |s|, e.node, v);
      GetEntriesStep(d, p, |es|, v);
      hide GetEntries;
      assert es == init + [Entry(OrEmpty(Some(e.name)), e.node)];
    }
  }

  lemma GetEntriesStep(d: bytes, p: nat, count: nat, v: nat)
    requires count > 0 && GetEntries(d, p, count - 1, v).Ok?
    ensures var (es, p1) := GetEntries(d, p, count - 1, v).value;
            var name := GetString(d, p1);
            name.Ok? && GetNode(d, name.value.1, v).Ok? ==>
              var n := GetNode(d, name.value.1, v).value;
              GetEntries(d, p, count, v) == Ok((es + [Entry(OrEmpty(name.value.0), n.0)], n.1))
  {
    hide GetString, GetNode;
  }
}
