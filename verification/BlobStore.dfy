/** Blobs at rest: wrapping, sealing, addressing, and fetching one back from a store of files. */
module BlobStore {
  import opened Wrappers
  import opened Bytes
  import opened TreeFormat
  import opened Arqo

  /** The plaintext length whose 4-byte prefix spells the magic. */
  const ARQO_LENGTH: nat := 0x4152_514F
  const COMPRESSION_LZ4: int := 2
  const STANDARDOBJECTS: bytes :=
    [0x73, 0x74, 0x61, 0x6E, 0x64, 0x61, 0x72, 0x64, 0x6F, 0x62, 0x6A, 0x65, 0x63, 0x74, 0x73]
  const BLOB_ID_LENGTH: nat := 64

  /** The primitives this model takes as given; `seal` has its random material as a number. */
  datatype Crypto = Crypto(
    blobId: bytes -> bytes, seal: (bytes, nat) -> bytes, unseal: bytes -> Result<bytes>,
    compress: bytes -> bytes, decompress: (bytes, nat) -> Result<bytes>, gunzip: bytes -> Result<bytes>)
  {
    ghost predicate Lawful() {
      && (forall p :: |blobId(p)| == BLOB_ID_LENGTH)
      && (forall p, r :: ARQO_MAGIC <= seal(p, r))
      && (forall p, r :: unseal(seal(p, r)) == Ok(p))
      && (forall p :: decompress(compress(p), |p|) == Ok(p))
    }
  }

  type Store = map<bytes, bytes>

  /** struct.pack(">I", len) raises from 4 GiB on. */
  function Lz4Wrap(c: Crypto, p: bytes): Result<bytes> {
    if |p| >= TWO_TO_32 then Err else Ok(BigEndian(|p|, 4) + c.compress(p))
  }

  function Lz4Unwrap(c: Crypto, w: bytes): Result<bytes> {
    if |w| < 4 then Err else c.decompress(w[4..], Unsigned(w[..4]))
  }

  function PathForBlob(computer: bytes, id: bytes): bytes
    requires |id| >= 2
  {
    [0x2F] + computer + [0x2F] + STANDARDOBJECTS + [0x2F] + id[..2] + [0x2F] + id[2..]
  }

  function FileBlobLoc(computer: bytes, id: bytes, length: nat): BlobLoc
    requires |id| >= 2
  {
    BlobLoc(id, false, false, PathForBlob(computer, id), 0, length, true, COMPRESSION_LZ4)
  }

  function ReadRange(b: bytes, offset: int, length: int): Result<bytes> {
    if offset < 0 || length < 0 then Err
    else if offset >= |b| then Ok([])
    else if offset + length > |b| then Ok(b[offset..])
    else Ok(b[offset..offset + length])
  }

  /** _fetch_blob */
  function Fetch(c: Crypto, store: Store, loc: BlobLoc): Result<bytes> {
    if loc.relativePath !in store then Err
    else
      var stored := store[loc.relativePath];
      var raw :- if loc.isPacked then ReadRange(stored, loc.offset, loc.length) else Ok(stored);
      var body :- if ARQO_MAGIC <= raw then c.unseal(raw) else Ok(raw);
      if loc.compressionType == COMPRESSION_LZ4 then Lz4Unwrap(c, body)
      else if loc.compressionType == 1 then c.gunzip(body)
      else if loc.compressionType == 0 then Ok(body)
      else Err
  }

  /** The object _write_blob stores for a wrapped plaintext. */
  function Object(c: Crypto, encrypted: bool, wrapped: bytes, randomness: nat): bytes {
    if encrypted then c.seal(wrapped, randomness) else wrapped
  }

  lemma PathsDiffer(computer: bytes, id: bytes, id': bytes)
    requires |id| == |id'| >= 2 && PathForBlob(computer, id) == PathForBlob(computer, id')
    ensures id == id'
  {
    var p, p' := PathForBlob(computer, id), PathForBlob(computer, id');
    var k := 1 + |computer| + 1 + |STANDARDOBJECTS| + 1;
    assert p[k..k + 2] == id[..2] && p'[k..k + 2] == id'[..2];
    assert p[k + 3..] == id[2..] && p'[k + 3..] == id'[2..];
    assert id == id[..2] + id[2..] && id' == id'[..2] + id'[2..];
  }

  lemma UnwrapInvertsWrap(c: Crypto, p: bytes)
    requires c.Lawful() && |p| < TWO_TO_32
    ensures Lz4Unwrap(c, Lz4Wrap(c, p).value) == Ok(p)
    ensures ARQO_MAGIC <= Lz4Wrap(c, p).value <==> |p| == ARQO_LENGTH
  {
    hide BigEndian, Unsigned;
    var w := Lz4Wrap(c, p).value;
    assert w[..4] == BigEndian(|p|, 4) && w[4..] == c.compress(p);
    PrefixIsMagic(|p|);
    assert ARQO_MAGIC <= w <==> w[..4] == ARQO_MAGIC;
  }

  lemma PrefixIsMagic(n: nat)
    requires n < TWO_TO_32
    ensures Unsigned(BigEndian(n, 4)) == n
    ensures BigEndian(n, 4) == ARQO_MAGIC <==> n == ARQO_LENGTH
  {
    hide BigEndian, Unsigned;
    Pow256Values();
    UnsignedOfBigEndian(n, 4);
    MagicIsLength();
  }

  lemma MagicIsLength()
    ensures Unsigned(ARQO_MAGIC) == ARQO_LENGTH && BigEndian(ARQO_LENGTH, 4) == ARQO_MAGIC
  {
    var m := ARQO_MAGIC;
    assert m[..3] == [0x41, 0x52, 0x51] && m[..3][..2] == [0x41, 0x52] && m[..3][..2][..1] == [0x41];
    assert Unsigned(m[..3][..2][..1]) == 0x41 by { assert m[..3][..2][..1][..0] == []; }
    assert Unsigned(m[..3][..2]) == 0x4152;
    assert Unsigned(m[..3]) == 0x41_5251;
    BigEndianOfUnsigned(m);
  }

  /**
   What is written can be fetched back: always when encrypted, and unencrypted exactly when the
   plaintext is not 0x4152514F bytes long, where its length prefix is taken for the magic (the
   unsealing of such unsealed bytes failing).
  */
  lemma FetchInvertsWrite(c: Crypto, encrypted: bool, p: bytes, randomness: nat, store: Store, loc: BlobLoc)
    requires c.Lawful() && |p| < TWO_TO_32
    requires loc.relativePath in store && !loc.isPacked && loc.compressionType == COMPRESSION_LZ4
    requires store[loc.relativePath] == Object(c, encrypted, Lz4Wrap(c, p).value, randomness)
    ensures encrypted || |p| != ARQO_LENGTH ==> Fetch(c, store, loc) == Ok(p)
    ensures !encrypted && c.unseal(Lz4Wrap(c, p).value).Err?
        ==> (Fetch(c, store, loc) == Ok(p) <==> |p| != ARQO_LENGTH)
  {
    UnwrapInvertsWrap(c, p);
  }

  /** What opening an object leads to: an object is sealed exactly when it starts with the magic. */
  lemma OpensAs(c: Crypto, store: Store, loc: BlobLoc, plain: bytes, randomness: nat)
    requires c.Lawful() && loc.relativePath in store && !loc.isPacked
    requires store[loc.relativePath] == c.seal(plain, randomness)
          || (store[loc.relativePath] == plain && !(ARQO_MAGIC <= plain))
    ensures loc.compressionType == 0 ==> Fetch(c, store, loc) == Ok(plain)
    ensures loc.compressionType == 1 ==> Fetch(c, store, loc) == c.gunzip(plain)
    ensures loc.compressionType == 2 ==> Fetch(c, store, loc) == Lz4Unwrap(c, plain)
    ensures loc.compressionType !in {0, 1, 2} ==> Fetch(c, store, loc).Err?
  {}

  /** A packed loc is answered with the object that stands at its offset, as if that object stood alone. */
  lemma PackedAsAlone(c: Crypto, store: Store, loc: BlobLoc, before: bytes, packed: bytes, after: bytes)
    requires loc.relativePath in store && store[loc.relativePath] == before + packed + after
    requires loc.isPacked && loc.offset == |before| && loc.length == |packed|
    ensures Fetch(c, store, loc) == Fetch(c, map[loc.relativePath := packed], loc.(isPacked := false))
  {
    var stored := before + packed + after;
    assert ReadRange(stored, loc.offset, loc.length) == Ok(packed) by {
      if |packed| > 0 || |after| > 0 {
        assert stored[|before|..|before| + |packed|] == packed;
      } else {
        assert packed == [];
      }
    }
  }

  /** What is written into a pack, wherever it comes to stand, can be fetched back from it. */
  lemma FetchInvertsPacking(
    c: Crypto, encrypted: bool, p: bytes, randomness: nat, store: Store, loc: BlobLoc, before: bytes, after: bytes)
    requires c.Lawful() && |p| < TWO_TO_32 && (encrypted || |p| != ARQO_LENGTH)
    requires var packed := Object(c, encrypted, Lz4Wrap(c, p).value, randomness);
             && loc.relativePath in store && store[loc.relativePath] == before + packed + after
             && loc.isPacked && loc.offset == |before| && loc.length == |packed|
    requires loc.compressionType == COMPRESSION_LZ4
    ensures Fetch(c, store, loc) == Ok(p)
  {
    var packed := Object(c, encrypted, Lz4Wrap(c, p).value, randomness);
    hide Fetch, Object, Lz4Wrap;
    PackedAsAlone(c, store, loc, before, packed, after);
    FetchInvertsWrite(c, encrypted, p, randomness, map[loc.relativePath := packed], loc.(isPacked := false));
  }
}
