/** Arq 5 .pack files: builder, parser, round trip, and reading one entry by the offset an index gives. */
module Arq5PackFile {
  import opened Wrappers
  import opened Bytes
  import opened Arq5Pack

  datatype PackEntry = PackEntry(mimetype: bytes, downloadName: bytes, data: bytes)

  /** A null mime type, a null download name, the length, the data. */
  function EntryBytes(data: bytes): bytes {
    [0] + [0] + BigEndian(|data|, 8) + data
  }

  function EntriesBytes(ds: seq<bytes>): bytes {
    if ds == [] then [] else EntryBytes(ds[0]) + EntriesBytes(ds[1..])
  }

  function PackBody(ds: seq<bytes>): bytes {
    PACK_FILE_MAGIC + BigEndian(FORMAT_VERSION, 4) + BigEndian(|ds|, 8) + EntriesBytes(ds)
  }

  predicate Sized(ds: seq<bytes>) {
    |ds| < TWO_TO_64 && forall i :: 0 <= i < |ds| ==> |ds[i]| < TWO_TO_64
  }

  /** build_pack_file; Err where packing a length raises. */
  method BuildPackFile(h: Hash, ds: seq<bytes>) returns (r: Result<bytes>)
    ensures r == if Sized(ds) then Ok(PackBody(ds) + h(PackBody(ds))) else Err
  {
    hide EntriesBytes, BigEndian;
    if |ds| >= TWO_TO_64 {
      return Err;
    }
    var out := PACK_FILE_MAGIC + BigEndian(FORMAT_VERSION, 4) + BigEndian(|ds|, 8);
    var k := 0;
    assert ds[0..] == ds;
    while k < |ds|
      invariant 0 <= k <= |ds| && out + EntriesBytes(ds[k..]) == PackBody(ds)
      invariant forall i :: 0 <= i < k ==> |ds[i]| < TWO_TO_64
    {
      if |ds[k]| >= TWO_TO_64 {
        return Err;
      }
      EntriesStep(out, ds, k);
      out := out + EntryBytes(ds[k]);
      k := k + 1;
    }
    NoEntries(out);
    assert ds[k..] == [];
    return Ok(out + h(out));
  }

  lemma EntriesStep(out: bytes, ds: seq<bytes>, k: nat)
    requires k < |ds|
    ensures out + EntriesBytes(ds[k..]) == out + EntryBytes(ds[k]) + EntriesBytes(ds[k + 1..])
  {
    hide EntryBytes;
    assert ds[k..][1..] == ds[k + 1..];
  }

  lemma NoEntries(out: bytes)
    ensures out + EntriesBytes([]) == out
  {}

  /** _read_string: the text (empty for null) and the position after it. */
  function ReadString(d: bytes, pos: nat): (r: Result<(bytes, nat)>)
    ensures r.Ok? ==> pos < r.value.1 <= |d|
  {
    if pos >= |d| then Err
    else if d[pos] == 0 then Ok(([], pos + 1))
    else if d[pos] != 1 || pos + 9 > |d| then Err
    else
      var length := Read(d, pos + 1, 8);
      if pos + 9 + length > |d| then Err else Ok((d[pos + 9..pos + 9 + length], pos + 9 + length))
  }

  function ReadEntry(d: bytes, pos: nat, bodyEnd: nat): (r: Result<(PackEntry, nat)>)
    requires bodyEnd <= |d|
    ensures r.Ok? ==> r.value.1 <= bodyEnd
  {
    var mime :- ReadString(d, pos);
    var name :- ReadString(d, mime.1);
    if name.1 + 8 > bodyEnd then Err
    else
      var (at, length) := (name.1 + 8, Read(d, name.1, 8));
      if at + length > bodyEnd then Err else Ok((PackEntry(mime.0, name.0, d[at..at + length]), at + length))
  }

  /** `count` entries from `pos` on, and the position after them. */
  function ReadEntries(d: bytes, pos: nat, bodyEnd: nat, count: nat): Result<(seq<PackEntry>, nat)>
    requires bodyEnd <= |d|
    decreases count
  {
    if count == 0 then Ok(([], pos))
    else
      var e :- ReadEntry(d, pos, bodyEnd);
      var rest :- ReadEntries(d, e.1, bodyEnd, count - 1);
      Ok(([e.0] + rest.0, rest.1))
  }

  /** What parse_pack_file makes of a file. */
  function PackOf(h: Hash, d: bytes): Result<seq<PackEntry>> {
    if |d| < 16 + SHA1_BYTES || d[..4] != PACK_FILE_MAGIC || Read(d, 4, 4) != FORMAT_VERSION then Err
    else
      var bodyEnd := |d| - SHA1_BYTES;
      if h(d[..bodyEnd]) != d[bodyEnd..] then Err
      else
        var r :- ReadEntries(d, 16, bodyEnd, Read(d, 8, 8));
        if r.1 != bodyEnd then Err else Ok(r.0)
  }

  lemma {:induction false} EntryCount(d: bytes, pos: nat, bodyEnd: nat, count: nat)
    requires bodyEnd <= |d|
    ensures var r := ReadEntries(d, pos, bodyEnd, count); r.Ok? ==> |r.value.0| == count
    decreases count
  {
    hide ReadEntry;
    if count > 0 && ReadEntry(d, pos, bodyEnd).Ok? {
      EntryCount(d, ReadEntry(d, pos, bodyEnd).value.1, bodyEnd, count - 1);
    }
  }

  /** A pack that is accepted is whole: magic, version, digest, and the number of entries it announces. */
  lemma AcceptedPack(h: Hash, d: bytes)
    ensures var r := PackOf(h, d); r.Ok? ==>
        && |d| >= 36 && d[..4] == [0x50, 0x41, 0x43, 0x4B] && Unsigned(d[4..8]) == 2
        && h(d[..|d| - 20]) == d[|d| - 20..] && |r.value| == Unsigned(d[8..16])
  {
    hide Unsigned, ReadEntries;
    if PackOf(h, d).Ok? {
      EntryCount(d, 16, |d| - SHA1_BYTES, Read(d, 8, 8));
    }
  }

  /** parse_pack_file */
  method ParsePackFile(h: Hash, d: bytes) returns (r: Result<seq<PackEntry>>)
    ensures r == PackOf(h, d)
    ensures r.Ok? ==>
        && |d| >= 36 && d[..4] == [0x50, 0x41, 0x43, 0x4B] && Unsigned(d[4..8]) == 2
        && h(d[..|d| - 20]) == d[|d| - 20..] && |r.value| == Unsigned(d[8..16])
  {
    AcceptedPack(h, d);
    hide Read, ReadEntry;
    if |d| < 16 + SHA1_BYTES {
      return Err;
    }
    if d[..4] != PACK_FILE_MAGIC {
      return Err;
    }
    if Read(d, 4, 4) != FORMAT_VERSION {
      return Err;
    }
    var count := Read(d, 8, 8);
    var bodyEnd := |d| - SHA1_BYTES;
    if h(d[..bodyEnd]) != d[bodyEnd..] {
      return Err;
    }
    var entries: seq<PackEntry> := [];
    var pos := 16;
    ghost var whole := ReadEntries(d, 16, bodyEnd, count);
    AfterNone(whole);
    var k := 0;
    while k < count
      invariant 0 <= k <= count
      invariant whole == After(entries, ReadEntries(d, pos, bodyEnd, count - k))
    {
      var e := ReadEntry(d, pos, bodyEnd);
      if e.Err? {
        return Err;
      }
      AfterOne(entries, e.value.0, ReadEntries(d, e.value.1, bodyEnd, count - k - 1));
      entries, pos := entries + [e.value.0], e.value.1;
      k := k + 1;
    }
    assert entries + [] == entries;
    if pos != bodyEnd {
      return Err;
    }
    return Ok(entries);
  }

  ghost function After(entries: seq<PackEntry>, r: Result<(seq<PackEntry>, nat)>): Result<(seq<PackEntry>, nat)> {
    if r.Ok? then Ok((entries + r.value.0, r.value.1)) else Err
  }

  lemma AfterNone(r: Result<(seq<PackEntry>, nat)>)
    ensures After([], r) == r
  {
    if r.Ok? {
      assert [] + r.value.0 == r.value.0;
    }
  }

  lemma AfterOne(entries: seq<PackEntry>, e: PackEntry, r: Result<(seq<PackEntry>, nat)>)
    ensures After(entries, if r.Ok? then Ok(([e] + r.value.0, r.value.1)) else Err) == After(entries + [e], r)
  {
    if r.Ok? {
      assert entries + ([e] + r.value.0) == entries + [e] + r.value.0;
    }
  }

  /* ---- The pack round trip ---- */

  function Plain(ds: seq<bytes>): (es: seq<PackEntry>)
    ensures |es| == |ds| && forall i :: 0 <= i < |ds| ==> es[i] == PackEntry([], [], ds[i])
  {
    seq(|ds|, i requires 0 <= i < |ds| => PackEntry([], [], ds[i]))
  }

  lemma EntryReads(d: bytes, pos: nat, bodyEnd: nat, data: bytes)
    requires At(d, pos, EntryBytes(data)) && |data| < TWO_TO_64 && pos + |EntryBytes(data)| <= bodyEnd <= |d|
    ensures ReadEntry(d, pos, bodyEnd) == Ok((PackEntry([], [], data), pos + ENTRY_HEADER_BYTES + |data|))
    ensures |EntryBytes(data)| == ENTRY_HEADER_BYTES + |data|
  {
    hide Read, BigEndian;
    Split4(d, pos, [0], [0], BigEndian(|data|, 8), data);
    Pow256Values();
    ReadsBack(d, pos + 2, |data|, 8);
    assert d[pos..pos + 1][0] == 0 && d[pos + 1..pos + 2][0] == 0;
  }

  lemma {:induction false} EntriesRead(d: bytes, pos: nat, bodyEnd: nat, ds: seq<bytes>)
    requires At(d, pos, EntriesBytes(ds)) && Sized(ds) && pos + |EntriesBytes(ds)| <= bodyEnd <= |d|
    ensures ReadEntries(d, pos, bodyEnd, |ds|) == Ok((Plain(ds), pos + |EntriesBytes(ds)|))
    decreases |ds|
  {
    hide EntryBytes, ReadEntry, At;
    if ds != [] {
      Split2(d, pos, EntryBytes(ds[0]), EntriesBytes(ds[1..]));
      EntryReads(d, pos, bodyEnd, ds[0]);
      EntriesRead(d, pos + |EntryBytes(ds[0])|, bodyEnd, ds[1..]);
      assert Plain(ds) == [PackEntry([], [], ds[0])] + Plain(ds[1..]);
    }
  }

  lemma PackParts(d: bytes, ds: seq<bytes>)
    requires At(d, 0, PackBody(ds))
    ensures At(d, 4, BigEndian(FORMAT_VERSION, 4)) && At(d, 8, BigEndian(|ds|, 8)) && At(d, 16, EntriesBytes(ds))
  {
    hide BigEndian, EntriesBytes, At;
    Split4(d, 0, PACK_FILE_MAGIC, BigEndian(FORMAT_VERSION, 4), BigEndian(|ds|, 8), EntriesBytes(ds));
  }

  lemma PackBodyLength(ds: seq<bytes>)
    ensures |PackBody(ds)| == 16 + |EntriesBytes(ds)| && PackBody(ds)[..4] == PACK_FILE_MAGIC
  {
    hide BigEndian, EntriesBytes;
  }

  /** Parsing a built pack gives the data back, in order, with null mime types and names. */
  lemma PackRoundTrip(h: Hash, ds: seq<bytes>)
    requires Is20(h) && Sized(ds)
    ensures PackOf(h, PackBody(ds) + h(PackBody(ds))) == Ok(Plain(ds))
  {
    hide BigEndian, EntriesBytes, Read, ReadEntries, PackBody, At;
    var body := PackBody(ds);
    var d := body + h(body);
    PackBodyLength(ds);
    WithTrailer(body, h(body));
    PackParts(d, ds);
    Pow256Values();
    ReadsBack(d, 4, FORMAT_VERSION, 4);
    ReadsBack(d, 8, |ds|, 8);
    EntriesRead(d, 16, |body|, ds);
  }

  /* ---- One entry, by its offset ---- */

  /** Where entry i starts in the pack of `ds`. */
  function EntryStart(ds: seq<bytes>, i: nat): nat
    requires i <= |ds|
  {
    16 + |EntriesBytes(ds[..i])|
  }

  /** read_range, which stops at the end of the file, and the slice fetch_object_bytes takes of it. */
  function SliceAt(pack: bytes, offset: nat, length: nat): bytes {
    var part := Clamp(pack, offset, offset + ENTRY_HEADER_BYTES + length);
    Clamp(part, ENTRY_HEADER_BYTES, ENTRY_HEADER_BYTES + length)
  }

  function Clamp(d: bytes, lo: nat, hi: nat): bytes
    requires lo <= hi
  {
    if lo >= |d| then [] else if hi > |d| then d[lo..] else d[lo..hi]
  }

  lemma {:induction false} EntryAt(d: bytes, p: nat, ds: seq<bytes>, i: nat)
    requires At(d, p, EntriesBytes(ds)) && i < |ds|
    ensures At(d, p + |EntriesBytes(ds[..i])|, EntryBytes(ds[i]))
    decreases |ds|
  {
    hide EntryBytes, At;
    Split2(d, p, EntryBytes(ds[0]), EntriesBytes(ds[1..]));
    if i > 0 {
      EntryAt(d, p + |EntryBytes(ds[0])|, ds[1..], i - 1);
      assert ds[..i][1..] == ds[1..][..i - 1];
    }
  }

  /** Reading a built pack at an entry's start, for the entry's length, gives the entry's data. */
  lemma SliceReturnsData(h: Hash, ds: seq<bytes>, i: nat)
    requires Is20(h) && i < |ds|
    ensures SliceAt(PackBody(ds) + h(PackBody(ds)), EntryStart(ds, i), |ds[i]|) == ds[i]
  {
    hide BigEndian, EntriesBytes, PackBody, At;
    var d := PackBody(ds) + h(PackBody(ds));
    PackBodyLength(ds);
    WithTrailer(PackBody(ds), h(PackBody(ds)));
    PackParts(d, ds);
    EntryAt(d, 16, ds, i);
    SliceOfEntry(d, EntryStart(ds, i), ds[i]);
  }

  lemma SliceOfEntry(d: bytes, p: nat, data: bytes)
    requires At(d, p, EntryBytes(data))
    ensures SliceAt(d, p, |data|) == data
  {
    hide BigEndian;
    var n := ENTRY_HEADER_BYTES + |data|;
    assert |EntryBytes(data)| == n;
    assert Clamp(d, p, p + n) == d[p..p + n] == EntryBytes(data);
    assert EntryBytes(data)[ENTRY_HEADER_BYTES..] == data;
    assert EntryBytes(data)[ENTRY_HEADER_BYTES..n] == data;
  }
}
