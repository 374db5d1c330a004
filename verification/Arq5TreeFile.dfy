/** Whole Arq 5 trees: the header, the parser over a stream, and that parsing inverts encoding in every version. */
module Arq5TreeFile {
  import opened Wrappers
  import opened Bytes
  import opened TreeFormat
  import TreeRoundTrip
  import opened TreeReader
  import opened Arq5Wire
  import opened Arq5Tree

  datatype Tree = Tree(version: nat, xattrsCompression: int, aclCompression: int, xattrsKey: Option<BlobKey>,
      xattrsSize: int, aclKey: Option<BlobKey>, stat: seq<Value>, createTime: seq<Value>, missing: seq<Entry>,
      nodes: seq<Entry>)

  /** uid, gid, mode; mtime and flags; Finder flags; dev, ino, nlink, rdev; ctime, blocks; block size. */
  const TREE_STAT: Schema := [Int32, Int32, Int32, Int64, Int64, Int64, Int32, Int32,
                              Int32, Int32, Uint32, Int32, Int64, Int64, Int64, Uint32]

  const TREE_HEADER_LENGTH: nat := 8
  /** "TreeV" */
  const TREE_MARK: bytes := [0x54, 0x72, 0x65, 0x65, 0x56]

  /* ---- The header ---- */

  predicate IsDigit(b: byte) { 0x30 <= b <= 0x39 }

  predicate IsSpace(b: byte) { 9 <= b <= 13 || 28 <= b <= 32 }

  function StripEnd(s: bytes): bytes {
    if s != [] && (s[|s| - 1] == 0 || s[|s| - 1] == 32) then StripEnd(s[..|s| - 1]) else s
  }

  function Trim(s: bytes): bytes {
    if s != [] && IsSpace(s[0]) then Trim(s[1..])
    else if s != [] && IsSpace(s[|s| - 1]) then Trim(s[..|s| - 1])
    else s
  }

  /** Digits, with single underscores between them. */
  function DigitsOf(s: bytes): Option<nat> {
    if s == [] || !IsDigit(s[|s| - 1]) then None
    else
      var (rest, last) := (s[..|s| - 1], s[|s| - 1] - 0x30);
      if rest == [] then Some(last)
      else
        match DigitsOf(if rest[|rest| - 1] == 0x5F then rest[..|rest| - 1] else rest)
        case None => None
        case Some(n) => Some(10 * n + last)
  }

  /** int(s) for a version; None where it raises or is negative. */
  function IntOf(s: bytes): Option<nat> {
    var t := Trim(s);
    DigitsOf(if t != [] && t[0] == 0x2B then t[1..] else t)
  }

  /** _parse_tree_header */
  function GetHeader(d: bytes): Result<(nat, nat)> {
    if |d| < TREE_HEADER_LENGTH || d[..5] != TREE_MARK then Err
    else
      match IntOf(StripEnd(d[5..8]))
      case None => Err
      case Some(v) => if v < 10 || v == 13 then Err else Ok((v, TREE_HEADER_LENGTH))
  }

  predicate Supported(v: nat) { 10 <= v < 1000 && v != 13 }

  /** "TreeV" and three digits */
  function WriteHeader(v: nat): bytes
    requires v < 1000
  {
    TREE_MARK + [0x30 + v / 100, 0x30 + v / 10 % 10, 0x30 + v % 10]
  }

  lemma ReadHeader(d: bytes, v: nat)
    requires Supported(v) && At(d, 0, WriteHeader(v))
    ensures GetHeader(d) == Ok((v, TREE_HEADER_LENGTH))
  {
    var s := [0x30 + v / 100, 0x30 + v / 10 % 10, 0x30 + v % 10];
    Split2(d, 0, TREE_MARK, s);
    assert d[..5] == d[0..5] == TREE_MARK && d[5..8] == s;
    ThreeDigits(v);
  }

  lemma ThreeDigits(v: nat)
    requires v < 1000
    ensures IntOf(StripEnd([0x30 + v / 100, 0x30 + v / 10 % 10, 0x30 + v % 10])) == Some(v)
  {
    var s := [0x30 + v / 100, 0x30 + v / 10 % 10, 0x30 + v % 10];
    assert StripEnd(s) == s && Trim(s) == s;
    hide StripEnd, Trim;
    var (one, two) := ([0x30 + v / 100], [0x30 + v / 100, 0x30 + v / 10 % 10]);
    assert s[..2] == two && two[..1] == one && one[..0] == [];
    assert DigitsOf(one) == Some(v / 100);
    assert DigitsOf(two) == Some(10 * (v / 100) + v / 10 % 10);
  }

  /* ---- The tree ---- */

  function GetAggregate(d: bytes, p: nat, v: nat): Result<((), nat)> {
    if 11 <= v <= 16 then
      var (_, q) :- GetUint(d, p, 8);
      Ok(((), q))
    else Ok(((), p))
  }

  function CreateSchema(v: nat): Schema { if v >= 15 then [Int64, Int64] else [] }

  function GetListing(d: bytes, p: nat, v: nat): Result<(seq<Entry>, nat)> {
    var (count, q) :- GetUint(d, p, 4);
    GetEntries(d, q, count, v)
  }

  function GetMissing(d: bytes, p: nat, v: nat): Result<(seq<Entry>, nat)> {
    if v >= 18 then GetListing(d, p, v) else Ok(([], p))
  }

  /** A tree's own compression types, of its xattrs and its ACL. */
  function GetTreeCompression(d: bytes, p: nat, v: nat): Result<((int, int), nat)> {
    RowShape(d, p, CompressionSchema(v, 2));
    var (cs, q) :- GetRow(d, p, CompressionSchema(v, 2));
    Ok((if v < 12 then (0, 0) else (CompressionOf(cs[0]), CompressionOf(cs[1])), q))
  }

  /** parse_tree: bytes after the last node are ignored. */
  function ParseTree(d: bytes): Result<Tree> {
    var (v, p1) :- GetHeader(d);
    var (c, p2) :- GetTreeCompression(d, p1, v);
    var (a, p3) :- GetAttributes(d, p2, v, c.0, c.1);
    var (stat, p4) :- GetRow(d, p3, TREE_STAT);
    var (_, p5) :- GetAggregate(d, p4, v);
    var (created, p6) :- GetRow(d, p5, CreateSchema(v));
    var (missing, p7) :- GetMissing(d, p6, v);
    var (nodes, _) :- GetListing(d, p7, v);
    Ok(Tree.Tree(v, c.0, c.1, a.xattrsKey, a.xattrsSize, a.aclKey, stat, created, missing, nodes))
  }

  function TreeAttributes(t: Tree): Attributes { Attributes(t.xattrsKey, t.xattrsSize, t.aclKey) }

  /** The tree is one its version can store. */
  predicate TreeFits(t: Tree) {
    && Supported(t.version) && CompressionFits(t.xattrsCompression, t.version)
    && CompressionFits(t.aclCompression, t.version)
    && AttributesFit(TreeAttributes(t), t.version, t.xattrsCompression, t.aclCompression)
    && Conforms(t.stat, TREE_STAT) && Conforms(t.createTime, CreateSchema(t.version))
    && (t.version < 18 ==> t.missing == [])
    && |t.missing| < TWO_TO_32 && |t.nodes| < TWO_TO_32 && EntriesFit(t.missing, t.version)
    && EntriesFit(t.nodes, t.version)
  }

  function TreeCompressionRow(t: Tree): seq<Value> {
    if t.version < 12 then [] else [CompressionValue(t.xattrsCompression, t.version),
        CompressionValue(t.aclCompression, t.version)]
  }

  lemma TreeCompressionFits(t: Tree)
    requires CompressionFits(t.xattrsCompression, t.version) && CompressionFits(t.aclCompression, t.version)
    ensures Conforms(TreeCompressionRow(t), CompressionSchema(t.version, 2))
  {}

  function WriteAggregate(v: nat): bytes { if 11 <= v <= 16 then WriteUint64(0) else [] }

  function WriteListing(es: seq<Entry>, v: nat): bytes
    requires EntriesFit(es, v)
  {
    WriteUint32(|es|) + WriteEntries(es, v)
  }

  function WriteMissing(t: Tree): bytes
    requires TreeFits(t)
  {
    if t.version >= 18 then WriteListing(t.missing, t.version) else []
  }

  function WriteTop(t: Tree): bytes
    requires TreeFits(t)
  {
    TreeCompressionFits(t);
    WriteHeader(t.version) + WriteRow(TreeCompressionRow(t), CompressionSchema(t.version, 2))
    + WriteAttributes(TreeAttributes(t), t.version, t.xattrsCompression, t.aclCompression) + WriteRow(t.stat, TREE_STAT)
  }

  function WriteRest(t: Tree): bytes
    requires TreeFits(t)
  {
    WriteAggregate(t.version) + WriteRow(t.createTime, CreateSchema(t.version)) + WriteMissing(t)
        + WriteListing(t.nodes, t.version)
  }

  /** An encoder in the parser's field order. */
  function WriteTree(t: Tree): bytes
    requires TreeFits(t)
  {
    WriteTop(t) + WriteRest(t)
  }

  lemma ReadListing(d: bytes, p: nat, es: seq<Entry>, v: nat)
    requires EntriesFit(es, v) && |es| < TWO_TO_32 && At(d, p, WriteListing(es, v))
    ensures GetListing(d, p, v) == Ok((es, p + |WriteListing(es, v)|))
  {
    hide At, EntriesFit, WriteEntries, GetEntries, WriteUint32, GetUint;
    Split2(d, p, WriteUint32(|es|), WriteEntries(es, v));
    TreeRoundTrip.ReadUint32(d, p, |es|);
    SmallMod(|es|, TWO_TO_32);
    ReadEntries(d, p + 4, es, v);
  }

  lemma ReadTreeCompression(d: bytes, p: nat, t: Tree)
    requires CompressionFits(t.xattrsCompression, t.version) && CompressionFits(t.aclCompression, t.version)
    requires Conforms(TreeCompressionRow(t), CompressionSchema(t.version, 2))
    requires At(d, p, WriteRow(TreeCompressionRow(t), CompressionSchema(t.version, 2)))
    ensures GetTreeCompression(d, p, t.version)
         == Ok(((t.xattrsCompression, t.aclCompression),
             p + |WriteRow(TreeCompressionRow(t), CompressionSchema(t.version, 2))|))
  {
    hide At, Conforms, WriteRow, GetRow;
    ReadRow(d, p, TreeCompressionRow(t), CompressionSchema(t.version, 2));
  }

  lemma ReadAggregate(d: bytes, p: nat, v: nat)
    requires At(d, p, WriteAggregate(v))
    ensures GetAggregate(d, p, v) == Ok(((), p + |WriteAggregate(v)|))
  {
    hide At, WriteUint64, GetUint;
    if 11 <= v <= 16 {
      TreeRoundTrip.ReadUint64(d, p, 0);
    }
  }

  lemma ReadMissing(d: bytes, p: nat, t: Tree)
    requires TreeFits(t) && At(d, p, WriteMissing(t))
    ensures GetMissing(d, p, t.version) == Ok((t.missing, p + |WriteMissing(t)|))
  {
    hide At, WriteListing, GetListing, EntriesFit;
    if t.version >= 18 {
      ReadListing(d, p, t.missing, t.version);
    }
  }

  /**
   For every version the parser accepts, every tree it can store, and whatever follows: parsing gives the tree back.
  */
  lemma ParseInvertsWrite(t: Tree, rest: bytes)
    requires TreeFits(t)
    ensures ParseTree(WriteTree(t) + rest) == Ok(t)
  {
    hide WriteTop, WriteRest, TreeFits, At, GetHeader, GetTreeCompression, GetAttributes, GetRow, GetAggregate,
         GetMissing, GetListing;
    var d := WriteTree(t) + rest;
    AtPrefix(WriteTree(t), rest);
    Split2(d, 0, WriteTop(t), WriteRest(t));
    TopReads(d, t);
    RestReads(d, |WriteTop(t)|, t);
  }

  lemma TopReads(d: bytes, t: Tree)
    requires TreeFits(t) && At(d, 0, WriteTop(t))
    ensures var v := t.version;
            var c := GetTreeCompression(d, TREE_HEADER_LENGTH, v);
            && GetHeader(d) == Ok((v, TREE_HEADER_LENGTH))
            && c.Ok? && c.value.0 == (t.xattrsCompression, t.aclCompression)
            && var a := GetAttributes(d, c.value.1, v, t.xattrsCompression, t.aclCompression);
               a.Ok? && a.value.0 == TreeAttributes(t) && GetRow(d, a.value.1, TREE_STAT) == Ok((t.stat, |WriteTop(t)|))
  {
    hide At, WriteHeader, WriteRow, WriteAttributes, AttributesFit, EntriesFit, Conforms, CompressionFits;
    hide GetHeader, GetTreeCompression, GetAttributes, GetRow;
    TreeCompressionFits(t);
    var (v, x, l) := (t.version, t.xattrsCompression, t.aclCompression);
    var (h, c) := (WriteHeader(v), WriteRow(TreeCompressionRow(t), CompressionSchema(v, 2)));
    var (a, s) := (WriteAttributes(TreeAttributes(t), v, x, l), WriteRow(t.stat, TREE_STAT));
    Split4(d, 0, h, c, a, s);
    HeaderWidth(v);
    ReadHeader(d, v);
    ReadTreeCompression(d, |h|, t);
    ReadAttributes(d, |h| + |c|, TreeAttributes(t), v, x, l);
    ReadRow(d, |h| + |c| + |a|, t.stat, TREE_STAT);
  }

  lemma HeaderWidth(v: nat)
    requires v < 1000
    ensures |WriteHeader(v)| == TREE_HEADER_LENGTH
  {}

  lemma RestReads(d: bytes, p: nat, t: Tree)
    requires TreeFits(t) && At(d, p, WriteRest(t))
    ensures var v := t.version;
            var g := GetAggregate(d, p, v);
            && g.Ok?
            && var c := GetRow(d, g.value.1, CreateSchema(v));
               c.Ok? && c.value.0 == t.createTime
               && var m := GetMissing(d, c.value.1, v);
                  m.Ok? && m.value.0 == t.missing && GetListing(d, m.value.1, v) == Ok((t.nodes, p + |WriteRest(t)|))
  {
    hide At, WriteAggregate, WriteRow, WriteMissing, WriteListing, AttributesFit, EntriesFit, Conforms, CompressionFits;
    hide GetAggregate, GetRow, GetMissing, GetListing;
    var v := t.version;
    var (g, c, m, l) := (WriteAggregate(v), WriteRow(t.createTime, CreateSchema(v)), WriteMissing(t),
        WriteListing(t.nodes, v));
    Split4(d, p, g, c, m, l);
    ReadAggregate(d, p, v);
    ReadRow(d, p + |g|, t.createTime, CreateSchema(v));
    ReadMissing(d, p + |g| + |c|, t);
    ReadListing(d, p + |g| + |c| + |m|, t.nodes, v);
  }

  /** Encodings are uniquely decodable: none is a proper prefix of another's beginning. */
  lemma UniquelyDecodable(t: Tree, u: Tree, rest: bytes, rest': bytes)
    requires TreeFits(t) && TreeFits(u) && WriteTree(t) + rest == WriteTree(u) + rest'
    ensures t == u && rest == rest'
  {
    hide WriteTree, TreeFits;
    ParseInvertsWrite(t, rest);
    ParseInvertsWrite(u, rest');
    var d := WriteTree(t) + rest;
    assert rest == d[|WriteTree(t)|..] && rest' == d[|WriteTree(u)|..];
  }

  /** The nodes by name: of several with one name the last is kept. */
  function ByName(es: seq<Entry>): map<bytes, Arq5Tree.Node> {
    if es == [] then map[] else ByName(es[..|es| - 1])[es[|es| - 1].name := es[|es| - 1].node]
  }

  /** What parse_tree returns: the missing and the listed nodes are dictionaries. */
  datatype Listing = Listing(top: Tree, missingNodes: map<bytes, Arq5Tree.Node>, nodes: map<bytes, Arq5Tree.Node>)

  function Keyed(t: Tree): Listing { Listing(t.(missing := [], nodes := []), ByName(t.missing), ByName(t.nodes)) }

  ghost predicate DistinctNames(es: seq<Entry>) {
    forall i, j :: 0 <= i < j < |es| ==> es[i].name != es[j].name
  }

  /** The dictionary holds exactly the entries listed. */
  ghost predicate HoldsAll(nodes: map<bytes, Arq5Tree.Node>, es: seq<Entry>) {
    && |nodes| == |es| && (forall i :: 0 <= i < |es| ==> es[i].name in nodes && nodes[es[i].name] == es[i].node)
    && forall n :: n in nodes ==> exists i :: 0 <= i < |es| && es[i].name == n
  }

  /** With distinct names none is lost. */
  lemma ByNameKeepsAll(es: seq<Entry>)
    requires DistinctNames(es)
    ensures HoldsAll(ByName(es), es)
  {
    hide ByName;
    EntriesKept(es);
    forall n ensures n in ByName(es) ==> exists i :: 0 <= i < |es| && es[i].name == n {
      NamesListed(es, n);
    }
  }

  lemma {:induction false} EntriesKept(es: seq<Entry>)
    requires DistinctNames(es)
    ensures |ByName(es)| == |es| && forall i ::
        0 <= i < |es| ==> es[i].name in ByName(es) && ByName(es)[es[i].name] == es[i].node
    decreases |es|
  {
    if es != [] {
      var (init, last) := (es[..|es| - 1], es[|es| - 1]);
      EntriesKept(init);
      NamesListed(init, last.name);
    }
  }

  lemma {:induction false} NamesListed(es: seq<Entry>, name: bytes)
    ensures name in ByName(es) ==> exists i :: 0 <= i < |es| && es[i].name == name
    decreases |es|
  {
    if es != [] {
      NamesListed(es[..|es| - 1], name);
    }
  }

  /** Encoding and parsing a tree whose names are distinct loses nothing, dictionaries included. */
  lemma KeyedRoundTrip(t: Tree, rest: bytes)
    requires TreeFits(t) && DistinctNames(t.missing) && DistinctNames(t.nodes)
    ensures var r := ParseTree(WriteTree(t) + rest);
            && r.Ok? && var k := Keyed(r.value);
               k.top == t.(missing := [], nodes := []) && HoldsAll(k.missingNodes, t.missing)
                   && HoldsAll(k.nodes, t.nodes)
  {
    hide ParseTree, WriteTree, TreeFits, DistinctNames, HoldsAll;
    ParseInvertsWrite(t, rest);
    ByNameKeepsAll(t.missing);
    ByNameKeepsAll(t.nodes);
  }
}
