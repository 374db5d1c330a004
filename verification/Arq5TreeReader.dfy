/** The Arq 5 parsers as they run: reads that advance a stream, each agreeing with its specification. */
module Arq5TreeReader {
  import opened Wrappers
  import opened Bytes
  import opened TreeFormat
  import opened TreeReader
  import opened Arq5Wire
  import opened Arq5Tree
  import opened Arq5TreeFile

  /** parse_blobkey */
  method ParseBlobKey(s: BinaryStream, v: nat, compressionType: int) returns (r: Result<Option<BlobKey>>)
    modifies s
    ensures Agrees(GetKey(s.data, old(s.pos), v, compressionType), r, s.pos)
  {
    hide GetRow, KeySchema;
    RowShape(s.data, s.pos, KeySchema(v));
    var vs :- s.ReadFields(KeySchema(v));
    return Ok(KeyOf(vs, v, compressionType));
  }

  method ParseHead(s: BinaryStream, v: nat) returns (r: Result<Head>)
    modifies s
    ensures Agrees(GetHead(s.data, old(s.pos), v), r, s.pos)
  {
    hide GetRow, GetInt32;
    RowShape(s.data, s.pos, FlagsSchema(v));
    var flags :- s.ReadFields(FlagsSchema(v));
    RowShape(s.data, s.pos, CompressionSchema(v, 3));
    var cs :- s.ReadFields(CompressionSchema(v, 3));
    var count :- s.ReadInt32();
    var compression := if v < 12 then Compression(0, 0, 0)
                       else Compression(CompressionOf(cs[0]), CompressionOf(cs[1]), CompressionOf(cs[2]));
    return Ok(Head(flags[0].b, v >= 18 && flags[1].b, compression, count));
  }

  /** The loop over a node's data blob keys: null keys are dropped. */
  method ParseKeys(s: BinaryStream, count: nat, v: nat, compressionType: int) returns (r: Result<seq<BlobKey>>)
    modifies s
    ensures Agrees(GetKeys(s.data, old(s.pos), count, v, compressionType), r, s.pos)
  {
    hide GetKey;
    var keys: seq<BlobKey> := [];
    var k := 0;
    while k < count
      invariant 0 <= k <= count && GetKeys(s.data, old(s.pos), k, v, compressionType) == Ok((keys, s.pos))
    {
      var key := ParseBlobKey(s, v, compressionType);
      if key.Err? {
        KeysFail(s.data, old(s.pos), k + 1, count, v, compressionType);
        return Err;
      }
      if key.value.Some? {
        keys := keys + [key.value.value];
      }
      k := k + 1;
    }
    return Ok(keys);
  }

  lemma {:induction false} KeysFail(d: bytes, p: nat, k: nat, count: nat, v: nat, compressionType: int)
    requires k <= count && GetKeys(d, p, k, v, compressionType).Err?
    ensures GetKeys(d, p, count, v, compressionType).Err?
    decreases count - k
  {
    hide GetKey;
    if k < count {
      KeysFail(d, p, k + 1, count, v, compressionType);
    }
  }

  method ParseUnused(s: BinaryStream, v: nat) returns (r: Result<()>)
    modifies s
    ensures Agrees(GetUnused(s.data, old(s.pos), v), r, s.pos)
  {
    hide GetKey;
    if v < 18 {
      var _ :- ParseBlobKey(s, v, 0);
      var _ :- ParseBlobKey(s, v, 0);
    }
    return Ok(());
  }

  method ParseAttributes(s: BinaryStream, v: nat, xattrs: int, acl: int) returns (r: Result<Attributes>)
    modifies s
    ensures Agrees(GetAttributes(s.data, old(s.pos), v, xattrs, acl), r, s.pos)
  {
    hide GetKey, GetUint;
    var x :- ParseBlobKey(s, v, xattrs);
    var size :- s.ReadUint(8);
    var a :- ParseBlobKey(s, v, acl);
    return Ok(Attributes(x, size, a));
  }

  /** parse_node */
  method ParseNode(s: BinaryStream, v: nat) returns (r: Result<Arq5Tree.Node>)
    modifies s
    ensures Agrees(Arq5Tree.GetNode(s.data, old(s.pos), v), r, s.pos)
  {
    hide GetHead, GetKeys, GetUint, GetUnused, GetAttributes, GetRow;
    var h :- ParseHead(s, v);
    var keys :- ParseKeys(s, Rounds(h.count), v, h.compression.data);
    var size :- s.ReadUint(8);
    var _ :- ParseUnused(s, v);
    var a :- ParseAttributes(s, v, h.compression.xattrs, h.compression.acl);
    var stat :- s.ReadFields(NODE_STAT);
    return Ok(Arq5Tree.Node.Node(h.isTree, h.missingItems, h.compression, keys, size, a.xattrsKey, a.xattrsSize,
        a.aclKey, stat));
  }

  /** The listed nodes as a dictionary. */
  function GetNodes(d: bytes, p: nat, v: nat): Result<(map<bytes, Arq5Tree.Node>, nat)> {
    var (es, q) :- GetListing(d, p, v);
    Ok((ByName(es), q))
  }

  function GetMissingNodes(d: bytes, p: nat, v: nat): Result<(map<bytes, Arq5Tree.Node>, nat)> {
    var (es, q) :- GetMissing(d, p, v);
    Ok((ByName(es), q))
  }

  /** A count and as many named nodes, a later one replacing an earlier one of its name. */
  method ParseListing(s: BinaryStream, v: nat) returns (r: Result<map<bytes, Arq5Tree.Node>>)
    modifies s
    ensures Agrees(GetNodes(s.data, old(s.pos), v), r, s.pos)
  {
    hide GetUint, GetString, Arq5Tree.GetNode;
    var count :- s.ReadUint(4);
    ghost var start := s.pos;
    ghost var es: seq<Entry> := [];
    var nodes: map<bytes, Arq5Tree.Node> := map[];
    var k := 0;
    while k < count
      invariant 0 <= k <= count && GetEntries(s.data, start, k, v) == Ok((es, s.pos)) && nodes == ByName(es)
    {
      var e := ParseEntry(s, v);
      if e.Err? {
        EntriesFail(s.data, start, k + 1, count, v);
        return Err;
      }
      assert (es + [e.value])[..|es|] == es;
      nodes := nodes[e.value.name := e.value.node];
      es, k := es + [e.value], k + 1;
    }
    return Ok(nodes);
  }

  function GetEntry(d: bytes, p: nat, v: nat): Result<(Entry, nat)> {
    var (name, q) :- GetString(d, p);
    var (n, q2) :- Arq5Tree.GetNode(d, q, v);
    Ok((Entry(OrEmpty(name), n), q2))
  }

  method ParseEntry(s: BinaryStream, v: nat) returns (r: Result<Entry>)
    modifies s
    ensures Agrees(GetEntry(s.data, old(s.pos), v), r, s.pos)
  {
    hide GetString, Arq5Tree.GetNode;
    var name :- s.ReadString();
    var n :- ParseNode(s, v);
    return Ok(Entry(OrEmpty(name), n));
  }

  lemma {:induction false} EntriesFail(d: bytes, p: nat, k: nat, count: nat, v: nat)
    requires k <= count && GetEntries(d, p, k, v).Err?
    ensures GetEntries(d, p, count, v).Err?
    decreases count - k
  {
    hide GetString, Arq5Tree.GetNode;
    if k < count {
      EntriesFail(d, p, k + 1, count, v);
    }
  }

  /** _parse_tree_header */
  method ParseHeader(s: BinaryStream) returns (r: Result<nat>)
    requires s.pos == 0
    modifies s
    ensures Agrees(GetHeader(s.data), r, s.pos)
  {
    if |s.data| < TREE_HEADER_LENGTH {
      return Err;
    }
    var raw := s.data[..TREE_HEADER_LENGTH];
    s.pos := TREE_HEADER_LENGTH;
    assert raw[..5] == s.data[..5] && raw[5..] == s.data[5..8];
    if raw[..5] != TREE_MARK {
      return Err;
    }
    var v := IntOf(StripEnd(raw[5..]));
    if v.None? || v.value < 10 || v.value == 13 {
      return Err;
    }
    return Ok(v.value);
  }

  method ParseTreeCompression(s: BinaryStream, v: nat) returns (r: Result<(int, int)>)
    modifies s
    ensures Agrees(GetTreeCompression(s.data, old(s.pos), v), r, s.pos)
  {
    hide GetRow;
    RowShape(s.data, s.pos, CompressionSchema(v, 2));
    var cs :- s.ReadFields(CompressionSchema(v, 2));
    return Ok(if v < 12 then (0, 0) else (CompressionOf(cs[0]), CompressionOf(cs[1])));
  }

  method ParseAggregate(s: BinaryStream, v: nat) returns (r: Result<()>)
    modifies s
    ensures Agrees(GetAggregate(s.data, old(s.pos), v), r, s.pos)
  {
    hide GetUint;
    if 11 <= v <= 16 {
      var _ :- s.ReadUint(8);
    }
    return Ok(());
  }

  method ParseMissing(s: BinaryStream, v: nat) returns (r: Result<map<bytes, Arq5Tree.Node>>)
    modifies s
    ensures Agrees(GetMissingNodes(s.data, old(s.pos), v), r, s.pos)
  {
    hide GetListing;
    if v >= 18 {
      r := ParseListing(s, v);
      return r;
    }
    return Ok(map[]);
  }

  /** parse_tree */
  method ParseTreeBytes(data: bytes) returns (r: Result<Listing>)
    ensures r == match Arq5TreeFile.ParseTree(data) case Err => Err case Ok(t) => Ok(Keyed(t))
  {
    hide GetHeader, GetTreeCompression, GetAttributes, GetRow, GetAggregate, GetMissing, GetListing;
    var s := new BinaryStream(data);
    var v :- ParseHeader(s);
    var c :- ParseTreeCompression(s, v);
    var a :- ParseAttributes(s, v, c.0, c.1);
    var stat :- s.ReadFields(TREE_STAT);
    var _ :- ParseAggregate(s, v);
    var created :- s.ReadFields(CreateSchema(v));
    var missing :- ParseMissing(s, v);
    var nodes :- ParseListing(s, v);
    var top := Arq5TreeFile.Tree.Tree(v, c.0, c.1, a.xattrsKey, a.xattrsSize, a.aclKey, stat, created, [], []);
    return Ok(Listing(top, missing, nodes));
  }
}
