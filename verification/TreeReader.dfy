/** The stateful reader: every read advances pos and computes what TreeFormat says it computes. */
module TreeReader {
  import opened Wrappers
  import opened Bytes
  import opened TreeFormat

  /** A read agrees with its specification: same failure, or same value and end position. */
  ghost predicate Agrees<T>(spec: Result<(T, nat)>, r: Result<T>, pos: nat) {
    match spec
    case Err => r.Err?
    case Ok(vp) => r == Ok(vp.0) && pos == vp.1
  }

  class BinaryReader {
    const data: bytes
    var pos: nat

    constructor (data: bytes)
      ensures this.data == data && pos == 0
    {
      this.data := data;
      this.pos := 0;
    }

    method ReadRaw(n: nat) returns (r: Result<bytes>)
      modifies this
      ensures Agrees(GetRaw(data, old(pos), n), r, pos)
    {
      if pos + n > |data| {
        return Err;
      }
      r := Ok(data[pos..pos + n]);
      pos := pos + n;
    }

    method ReadBool() returns (r: Result<bool>)
      modifies this
      ensures Agrees(GetBool(data, old(pos)), r, pos)
    {
      var b :- ReadRaw(1);
      return Ok(b[0] != 0);
    }

    method ReadUint(width: nat) returns (r: Result<nat>)
      modifies this
      ensures Agrees(GetUint(data, old(pos), width), r, pos)
    {
      var b :- ReadRaw(width);
      return Ok(Unsigned(b));
    }

    method ReadInt32() returns (r: Result<int32>)
      modifies this
      ensures Agrees(GetInt32(data, old(pos)), r, pos)
    {
      UintBound(data, pos, 4);
      var u :- ReadUint(4);
      return Ok(ToSigned(u, TWO_TO_31));
    }

    method ReadInt64() returns (r: Result<int64>)
      modifies this
      ensures Agrees(GetInt64(data, old(pos)), r, pos)
    {
      UintBound(data, pos, 8);
      var u :- ReadUint(8);
      return Ok(ToSigned(u, TWO_TO_63));
    }

    method ReadString() returns (r: Result<Option<bytes>>)
      modifies this
      ensures Agrees(GetString(data, old(pos)), r, pos)
    {
      var flag :- ReadRaw(1);
      if flag[0] == 0 {
        return Ok(None);
      }
      if flag[0] != 1 {
        return Err;
      }
      var n :- ReadUint(8);
      var s :- ReadRaw(n);
      return Ok(Some(s));
    }

    method ParseBlobLoc() returns (r: Result<BlobLoc>)
      modifies this
      ensures Agrees(GetBlobLoc(data, old(pos)), r, pos)
    {
      hide GetString, GetUint, GetBool;
      var id :- ReadString();
      var isPacked :- ReadBool();
      var isLargePack :- ReadBool();
      var relPath :- ReadString();
      var offset :- ReadUint(8);
      var length :- ReadUint(8);
      var stretch :- ReadBool();
      var compression :- ReadUint(4);
      return Ok(BlobLoc(OrEmpty(id), isPacked, isLargePack, OrEmpty(relPath),
                        offset, length, stretch, compression));
    }

    /** The list of `count` locs that parse_node reads for data and for xattrs. */
    method ParseBlobLocs(count: nat) returns (r: Result<seq<BlobLoc>>)
      modifies this
      ensures Agrees(GetBlobLocs(data, old(pos), count), r, pos)
    {
      hide GetBlobLoc;
      var locs: seq<BlobLoc> := [];
      ghost var start := pos;
      for i := 0 to count
        invariant GetBlobLocs(data, start, i) == Ok((locs, pos))
      {
        var l := ParseBlobLoc();
        if l.Err? {
          BadPrefix(data, start, i + 1, count);
          return Err;
        }
        locs := locs + [l.value];
      }
      return Ok(locs);
    }

    method ParseOptionalLoc() returns (r: Result<Option<BlobLoc>>)
      modifies this
      ensures Agrees(GetOptionalLoc(data, old(pos)), r, pos)
    {
      hide GetBool, GetBlobLoc;
      var present :- ReadBool();
      if present {
        var l :- ParseBlobLoc();
        return Ok(Some(l));
      }
      return Ok(None);
    }

    method ParseNodeLocs() returns (r: Result<NodeLocs>)
      modifies this
      ensures Agrees(GetNodeLocs(data, old(pos)), r, pos)
    {
      hide GetOptionalLoc, GetUint, GetBlobLocs;
      var tree :- ParseOptionalLoc();
      var os :- ReadUint(4);
      var dataCount :- ReadUint(8);
      var locs :- ParseBlobLocs(dataCount);
      var acl :- ParseOptionalLoc();
      var xattrCount :- ReadUint(8);
      var xattrs :- ParseBlobLocs(xattrCount);
      return Ok(NodeLocs(tree, os, locs, acl, xattrs));
    }

    method ParseTimes() returns (r: Result<Times>)
      modifies this
      ensures Agrees(GetTimes(data, old(pos)), r, pos)
    {
      hide GetInt64;
      var mtimeSec :- ReadInt64();
      var mtimeNsec :- ReadInt64();
      var ctimeSec :- ReadInt64();
      var ctimeNsec :- ReadInt64();
      var createSec :- ReadInt64();
      var createNsec :- ReadInt64();
      return Ok(Times(mtimeSec, mtimeNsec, ctimeSec, ctimeNsec, createSec, createNsec));
    }

    method ParseMac() returns (r: Result<MacStat>)
      modifies this
      ensures Agrees(GetMac(data, old(pos)), r, pos)
    {
      hide GetInt32, GetUint;
      var dev :- ReadInt32();
      var ino :- ReadUint(8);
      var mode :- ReadUint(4);
      var nlink :- ReadUint(4);
      var uid :- ReadUint(4);
      var gid :- ReadUint(4);
      var rdev :- ReadInt32();
      var flags :- ReadInt32();
      return Ok(MacStat(dev, ino, mode, nlink, uid, gid, rdev, flags));
    }

    method ParseFixed() returns (r: Result<Fixed>)
      modifies this
      ensures Agrees(GetFixed(data, old(pos)), r, pos)
    {
      hide GetUint, GetTimes, GetString, GetBool, GetMac;
      var itemSize :- ReadUint(8);
      var contained :- ReadUint(8);
      var times :- ParseTimes();
      var username :- ReadString();
      var groupName :- ReadString();
      var deleted :- ReadBool();
      var mac :- ParseMac();
      var winAttrs :- ReadUint(4);
      return Ok(Fixed(itemSize, contained, times, username, groupName, deleted, mac, winAttrs));
    }

    method ParseVersioned(version: int) returns (r: Result<Versioned>)
      modifies this
      ensures Agrees(GetVersioned(data, old(pos), version), r, pos)
    {
      hide GetUint, GetBool, GetRaw;
      var tag, isDirectory := 0, false;
      if version >= REPARSE_FIELDS_MIN_VERSION {
        tag :- ReadUint(4);
        isDirectory :- ReadBool();
      }
      var block: bytes := [];
      if version >= TRAILING_BLOCK_VERSION {
        block :- ReadRaw(TRAILING_BLOCK_BYTES);
      }
      return Ok(Versioned(tag, isDirectory, block));
    }

    method ParseNode(version: int) returns (r: Result<Node>)
      modifies this
      ensures Agrees(GetNode(data, old(pos), version), r, pos)
    {
      hide GetNodeLocs, GetFixed, GetVersioned;
      var locs :- ParseNodeLocs();
      var fixed :- ParseFixed();
      var versioned :- ParseVersioned(version);
      return Ok(Assemble(locs, fixed, versioned));
    }
  }

  lemma {:induction false} BadPrefix(d: bytes, p: nat, i: nat, count: nat)
    requires i <= count && GetBlobLocs(d, p, i).Err?
    ensures GetBlobLocs(d, p, count).Err?
    decreases count
  {
    hide GetBlobLoc;
    if i < count {
      BadPrefix(d, p, i, count - 1);
    }
  }

  lemma {:induction false} BadChildPrefix(d: bytes, p: nat, i: nat, count: nat, version: int)
    requires i <= count && GetChildren(d, p, i, version).Err?
    ensures GetChildren(d, p, count, version).Err?
    decreases count
  {
    hide GetString, GetNode;
    if i < count {
      BadChildPrefix(d, p, i, count - 1, version);
    }
  }

  method ParseTreeBytes(d: bytes) returns (r: Result<Tree>)
    ensures r == ParseTree(d)
  {
    hide GetUint, GetString, GetNode;
    var reader := new BinaryReader(d);
    var version :- reader.ReadUint(4);
    var count :- reader.ReadUint(8);
    ghost var start := reader.pos;
    var children: seq<TreeChild> := [];
    for i := 0 to count
      invariant GetChildren(d, start, i, version) == Ok((children, reader.pos))
    {
      var name := reader.ReadString();
      if name.Err? {
        BadChildPrefix(d, start, i + 1, count, version);
        return Err;
      }
      var node := reader.ParseNode(version);
      if node.Err? {
        BadChildPrefix(d, start, i + 1, count, version);
        return Err;
      }
      children := children + [TreeChild(OrEmpty(name.value), node.value)];
    }
    return Ok(Tree(children, version));
  }
}
