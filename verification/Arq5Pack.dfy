/** Arq 5 .index and .pack files: the builders, the parsers, and that each parser inverts its builder. */
module Arq5Pack {
  import opened Wrappers
  import opened Bytes
  import opened Ordering

  const PACK_INDEX_MAGIC: bytes := [0xFF, 0x74, 0x4F, 0x63]
  const PACK_FILE_MAGIC: bytes := [0x50, 0x41, 0x43, 0x4B]
  const FORMAT_VERSION: nat := 2
  const INDEX_FANOUT_BYTES: nat := 1024
  const INDEX_OBJECT_BYTES: nat := 40
  const SHA1_BYTES: nat := 20
  const OBJECTS_OFFSET: nat := 1032
  const ENTRY_HEADER_BYTES: nat := 10

  /** SHA-1, an abstract function of 20-byte results. */
  type Hash = bytes -> bytes

  ghost predicate Is20(h: Hash) { forall b :: |h(b)| == SHA1_BYTES }

  /** An index entry, its SHA-1 as raw bytes: lower-case hex names sort as their bytes do. */
  datatype IndexEntry = IndexEntry(sha: bytes, offset: nat, length: nat)

  /** b < c for byte strings */
  predicate BytesLess(b: bytes, c: bytes)
    decreases |b|
  {
    c != [] && (b == [] || b[0] < c[0] || (b[0] == c[0] && BytesLess(b[1..], c[1..])))
  }

  predicate BySha(a: IndexEntry, b: IndexEntry) { BytesLess(a.sha, b.sha) }

  lemma {:induction false} BytesTransitive(a: bytes, b: bytes, c: bytes)
    requires BytesLess(a, b) && BytesLess(b, c)
    ensures BytesLess(a, c)
    decreases |a|
  {
    if a != [] && a[0] == b[0] && b[0] == c[0] {
      BytesTransitive(a[1..], b[1..], c[1..]);
    }
  }

  lemma {:induction false} BytesIrreflexive(a: bytes)
    ensures !BytesLess(a, a)
  {
    if a != [] {
      BytesIrreflexive(a[1..]);
    }
  }

  lemma {:induction false} BytesTotal(a: bytes, b: bytes)
    ensures a == b || BytesLess(a, b) || BytesLess(b, a)
    decreases |a|
  {
    if a != [] && b != [] && a[0] == b[0] {
      BytesTotal(a[1..], b[1..]);
      if a[1..] == b[1..] {
        assert a == [a[0]] + a[1..] && b == [b[0]] + b[1..];
      }
    }
  }

  lemma ShaOrdered()
    ensures WeakOrder(BySha)
  {
    hide BytesLess;
    forall a, b | BySha(a, b) ensures !BySha(b, a) {
      if BySha(b, a) {
        BytesTransitive(a.sha, b.sha, a.sha);
        BytesIrreflexive(a.sha);
      }
    }
    forall a, b, c | BySha(a, b) && BySha(b, c) ensures BySha(a, c) { BytesTransitive(a.sha, b.sha, c.sha); }
    forall a, b, c | BySha(a, c) ensures BySha(a, b) || BySha(b, c) {
      BytesTotal(a.sha, b.sha);
      if BySha(b, a) {
        BytesTransitive(b.sha, a.sha, c.sha);
      }
    }
  }

  /* ---- Reading integers ---- */

  function Read(d: bytes, p: nat, width: nat): nat
    requires p + width <= |d|
  {
    Unsigned(d[p..p + width])
  }

  lemma ReadsBack(d: bytes, p: nat, n: nat, width: nat)
    requires At(d, p, BigEndian(n, width)) && n < Pow256(width)
    ensures Read(d, p, width) == n
  {
    hide Unsigned, BigEndian;
    UnsignedOfBigEndian(n, width);
    LessThanModulus(n, Pow256(width));
  }

  lemma LessThanModulus(n: nat, m: nat)
    requires n < m
    ensures n % m == n
  {}

  /* ---- .index ---- */

  function CountAt(es: seq<IndexEntry>, first: int): nat {
    if es == [] then 0
    else CountAt(es[..|es| - 1], first) + if es[|es| - 1].sha != [] && es[|es| - 1].sha[0] == first then 1 else 0
  }

  /** How many entries have a first SHA-1 byte of at most `first`. */
  function CountUpTo(es: seq<IndexEntry>, first: int): nat {
    if es == [] then 0
    else CountUpTo(es[..|es| - 1], first) + if es[|es| - 1].sha != [] && es[|es| - 1].sha[0] <= first then 1 else 0
  }

  lemma {:induction false} CountsAdd(es: seq<IndexEntry>, first: int)
    ensures CountUpTo(es, first) == CountUpTo(es, first - 1) + CountAt(es, first)
    ensures first < 0 ==> CountUpTo(es, first) == 0
    decreases |es|
  {
    if es != [] {
      CountsAdd(es[..|es| - 1], first);
    }
  }

  lemma {:induction false} CountsAll(es: seq<IndexEntry>)
    requires forall e :: e in es ==> |e.sha| == SHA1_BYTES
    ensures CountUpTo(es, 255) == |es|
    decreases |es|
  {
    if es != [] {
      assert es[|es| - 1] in es;
      CountsAll(es[..|es| - 1]);
    }
  }

  function ObjectBytes(e: IndexEntry): bytes {
    BigEndian(e.offset, 8) + BigEndian(e.length, 8) + e.sha + [0, 0, 0, 0]
  }

  function Objects(es: seq<IndexEntry>): bytes {
    if es == [] then [] else ObjectBytes(es[0]) + Objects(es[1..])
  }

  /** fanout entries from `i` on */
  function Table(es: seq<IndexEntry>, i: nat): bytes
    requires i <= 256
    decreases 256 - i
  {
    if i == 256 then [] else BigEndian(CountUpTo(es, i), 4) + Table(es, i + 1)
  }

  function IndexBody(es: seq<IndexEntry>): bytes {
    PACK_INDEX_MAGIC + BigEndian(FORMAT_VERSION, 4) + Table(es, 0) + Objects(es)
  }

  predicate Packable(es: seq<IndexEntry>) {
    && |es| < TWO_TO_32
    && forall i :: 0 <= i < |es| ==> es[i].offset < TWO_TO_64 && es[i].length < TWO_TO_64
  }

  /** The fanout list, first filled with counts and then summed in place. */
  method Fanout(es: seq<IndexEntry>) returns (fanout: array<nat>)
    requires forall e :: e in es ==> |e.sha| == SHA1_BYTES
    ensures fanout.Length == 256 && forall i :: 0 <= i < 256 ==> fanout[i] == CountUpTo(es, i)
  {
    fanout := new nat[256](i => 0);
    for k := 0 to |es|
      invariant forall i :: 0 <= i < 256 ==> fanout[i] == CountAt(es[..k], i)
    {
      assert es[..k + 1][..k] == es[..k];
      var first := es[k].sha[0];
      fanout[first] := fanout[first] + 1;
    }
    assert es[..|es|] == es;
    var cum := 0;
    CountsAdd(es, -1);
    for i := 0 to 256
      invariant cum == CountUpTo(es, i - 1)
      invariant forall m :: 0 <= m < i ==> fanout[m] == CountUpTo(es, m)
      invariant forall m :: i <= m < 256 ==> fanout[m] == CountAt(es, m)
    {
      CountsAdd(es, i);
      cum := cum + fanout[i];
      fanout[i] := cum;
    }
  }

  /** struct.pack(">256I", *fanout) */
  method PackFanout(es: seq<IndexEntry>, fanout: array<nat>) returns (out: bytes)
    requires fanout.Length == 256 && forall i :: 0 <= i < 256 ==> fanout[i] == CountUpTo(es, i)
    ensures out == Table(es, 0)
  {
    out := [];
    for i := 0 to 256
      invariant out + Table(es, i) == Table(es, 0)
    {
      assert out + (BigEndian(fanout[i], 4) + Table(es, i + 1)) == out + BigEndian(fanout[i], 4) + Table(es, i + 1);
      out := out + BigEndian(fanout[i], 4);
    }
  }

  /** build_pack_index; Err where packing an integer raises. */
  method BuildPackIndex(h: Hash, entries: seq<IndexEntry>) returns (r: Result<bytes>)
    requires forall e :: e in entries ==> |e.sha| == SHA1_BYTES
    ensures var body := IndexBody(Sort(BySha, entries));
            r == if Packable(entries) then Ok(body + h(body)) else Err
  {
    hide Sort, BytesLess, Table, CountUpTo, Objects, ObjectBytes;
    var sorted := Sort(BySha, entries);
    SortedSame(entries);
    var fanout := Fanout(sorted);
    if |sorted| >= TWO_TO_32 {
      return Err;
    }
    var table := PackFanout(sorted, fanout);
    var out := PACK_INDEX_MAGIC + BigEndian(FORMAT_VERSION, 4) + table;
    var k := 0;
    assert sorted[0..] == sorted;
    while k < |sorted|
      invariant 0 <= k <= |sorted| && out + Objects(sorted[k..]) == IndexBody(sorted)
      invariant forall i :: 0 <= i < k ==> sorted[i].offset < TWO_TO_64 && sorted[i].length < TWO_TO_64
    {
      if sorted[k].offset >= TWO_TO_64 || sorted[k].length >= TWO_TO_64 {
        return Err;
      }
      ObjectsStep(out, sorted, k);
      out := out + ObjectBytes(sorted[k]);
      k := k + 1;
    }
    NoObjects(out);
    assert sorted[k..] == [];
    return Ok(out + h(out));
  }

  lemma ObjectsStep(out: bytes, es: seq<IndexEntry>, k: nat)
    requires k < |es|
    ensures out + Objects(es[k..]) == out + ObjectBytes(es[k]) + Objects(es[k + 1..])
  {
    hide ObjectBytes;
    assert es[k..][1..] == es[k + 1..];
  }

  lemma NoObjects(out: bytes)
    ensures out + Objects([]) == out
  {}

  lemma SortedSame(entries: seq<IndexEntry>)
    ensures var s := Sort(BySha, entries);
            |s| == |entries| && (forall e :: e in s <==> e in entries) && (Packable(s) <==> Packable(entries))
  {
    hide Sort, BytesLess;
    ShaOrdered();
    SortSorts(BySha, entries);
    var s := Sort(BySha, entries);
    SameCounts(s, entries);
    assert |s| == |multiset(s)| == |entries|;
    SameMembersPackable(s, entries);
    SameMembersPackable(entries, s);
  }

  lemma SameMembersPackable(a: seq<IndexEntry>, b: seq<IndexEntry>)
    requires |a| == |b| && forall e :: e in a <==> e in b
    ensures Packable(a) ==> Packable(b)
  {
    if Packable(a) {
      forall i | 0 <= i < |b| ensures b[i].offset < TWO_TO_64 && b[i].length < TWO_TO_64 {
        assert b[i] in b && b[i] in a;
      }
    }
  }

  /** The entries of the object array, from `o` on. */
  function ReadObjects(d: bytes, o: nat, count: nat): seq<IndexEntry>
    requires o + count * INDEX_OBJECT_BYTES <= |d|
    decreases count
  {
    if count == 0 then []
    else
      var first := IndexEntry(d[o + 16..o + 36], Read(d, o, 8), Read(d, o + 8, 8));
      [first] + ReadObjects(d, o + INDEX_OBJECT_BYTES, count - 1)
  }

  /** What parse_pack_index makes of a file. */
  function IndexOf(h: Hash, d: bytes): Result<seq<IndexEntry>> {
    if |d| < 8 + INDEX_FANOUT_BYTES + SHA1_BYTES then Err
    else
      var (count, bodyEnd) := (Read(d, 8 + 255 * 4, 4), |d| - SHA1_BYTES);
      if d[..4] != PACK_INDEX_MAGIC || Read(d, 4, 4) != FORMAT_VERSION then Err
      else if h(d[..bodyEnd]) != d[bodyEnd..] then Err
      else if OBJECTS_OFFSET + count * INDEX_OBJECT_BYTES > bodyEnd then Err
      else Ok(ReadObjects(d, OBJECTS_OFFSET, count))
  }

  /** The k-th object of the array: 8 bytes of offset, 8 of length, 20 of SHA-1, and 4 more, at 40 bytes each. */
  ghost predicate StandsAt(d: bytes, p: nat, e: IndexEntry) {
    && p + 40 <= |d| && e.offset == Unsigned(d[p..p + 8]) && e.length == Unsigned(d[p + 8..p + 16])
    && e.sha == d[p + 16..p + 36]
  }

  lemma {:induction false} ObjectsStand(d: bytes, o: nat, count: nat)
    requires o + count * INDEX_OBJECT_BYTES <= |d|
    ensures var es := ReadObjects(d, o, count);
            |es| == count && forall k :: 0 <= k < count ==> StandsAt(d, o + 40 * k, es[k])
    decreases count
  {
    hide Unsigned;
    if count > 0 {
      var (es, more) := (ReadObjects(d, o, count), ReadObjects(d, o + INDEX_OBJECT_BYTES, count - 1));
      ObjectsStand(d, o + INDEX_OBJECT_BYTES, count - 1);
      forall k | 0 <= k < count ensures StandsAt(d, o + 40 * k, es[k]) {
        if k > 0 {
          assert es[k] == more[k - 1] && o + 40 * k == o + INDEX_OBJECT_BYTES + 40 * (k - 1);
        }
      }
    }
  }

  /**
   An index is accepted exactly if it is whole: magic, version, digest, and room for the objects its fanout counts.
  */
  lemma AcceptedIff(h: Hash, d: bytes)
    ensures IndexOf(h, d).Ok? <==>
        && |d| >= 1052 && d[..4] == [0xFF, 0x74, 0x4F, 0x63] && Unsigned(d[4..8]) == 2
        && h(d[..|d| - 20]) == d[|d| - 20..] && 1032 + 40 * Unsigned(d[1028..1032]) <= |d| - 20
    ensures IndexOf(h, d).Ok? ==> var es := IndexOf(h, d).value;
              |es| == Unsigned(d[1028..1032]) && forall k :: 0 <= k < |es| ==> StandsAt(d, 1032 + 40 * k, es[k])
  {
    hide Unsigned, ReadObjects, StandsAt;
    if IndexOf(h, d).Ok? {
      ObjectsStand(d, OBJECTS_OFFSET, Read(d, 8 + 255 * 4, 4));
    }
  }

  /** parse_pack_index */
  method ParsePackIndex(h: Hash, d: bytes) returns (r: Result<seq<IndexEntry>>)
    ensures r == IndexOf(h, d)
  {
    hide Unsigned;
    if |d| < 8 + INDEX_FANOUT_BYTES + SHA1_BYTES {
      return Err;
    }
    if d[..4] != PACK_INDEX_MAGIC {
      return Err;
    }
    if Read(d, 4, 4) != FORMAT_VERSION {
      return Err;
    }
    var count := Read(d, 8 + 255 * 4, 4);
    var bodyEnd := |d| - SHA1_BYTES;
    if h(d[..bodyEnd]) != d[bodyEnd..] {
      return Err;
    }
    if OBJECTS_OFFSET + count * INDEX_OBJECT_BYTES > bodyEnd {
      return Err;
    }
    var entries: seq<IndexEntry> := [];
    var o := OBJECTS_OFFSET;
    for k := 0 to count
      invariant o == OBJECTS_OFFSET + k * INDEX_OBJECT_BYTES
      invariant entries + ReadObjects(d, o, count - k) == ReadObjects(d, OBJECTS_OFFSET, count)
    {
      var e := IndexEntry(d[o + 16..o + 36], Read(d, o, 8), Read(d, o + 8, 8));
      assert entries + ([e] + ReadObjects(d, o + 40, count - k - 1))
          == entries + [e] + ReadObjects(d, o + 40, count - k - 1);
      entries := entries + [e];
      o := o + INDEX_OBJECT_BYTES;
    }
    assert entries + [] == entries;
    return Ok(entries);
  }

  /* ---- The index round trip ---- */

  lemma {:induction false} TableLength(es: seq<IndexEntry>, i: nat)
    requires i <= 256
    ensures |Table(es, i)| == 4 * (256 - i)
    decreases 256 - i
  {
    if i < 256 {
      TableLength(es, i + 1);
    }
  }

  /** The fanout slot for a first byte, inside the table. */
  lemma {:induction false} TableAt(es: seq<IndexEntry>, d: bytes, p: nat, i: nat, k: nat)
    requires i <= k < 256 && At(d, p, Table(es, i))
    ensures At(d, p + 4 * (k - i), BigEndian(CountUpTo(es, k), 4))
    decreases k - i
  {
    hide At, CountUpTo, BigEndian;
    Split2(d, p, BigEndian(CountUpTo(es, i), 4), Table(es, i + 1));
    if i < k {
      TableAt(es, d, p + 4, i + 1, k);
    }
  }

  lemma {:induction false} ObjectsLength(es: seq<IndexEntry>)
    requires forall e :: e in es ==> |e.sha| == SHA1_BYTES
    ensures |Objects(es)| == |es| * INDEX_OBJECT_BYTES
    decreases |es|
  {
    hide BigEndian;
    if es != [] {
      assert es[0] in es;
      ObjectsLength(es[1..]);
    }
  }

  lemma ObjectReads(d: bytes, p: nat, e: IndexEntry)
    requires At(d, p, ObjectBytes(e)) && |e.sha| == SHA1_BYTES && e.offset < TWO_TO_64 && e.length < TWO_TO_64
    ensures p + INDEX_OBJECT_BYTES <= |d| && IndexEntry(d[p + 16..p + 36], Read(d, p, 8), Read(d, p + 8, 8)) == e
  {
    hide BigEndian, Unsigned, Read;
    Split4(d, p, BigEndian(e.offset, 8), BigEndian(e.length, 8), e.sha, [0, 0, 0, 0]);
    Pow256Values();
    ReadsBack(d, p, e.offset, 8);
    ReadsBack(d, p + 8, e.length, 8);
  }

  lemma {:induction false} ObjectsRead(d: bytes, p: nat, es: seq<IndexEntry>)
    requires At(d, p, Objects(es)) && Packable(es) && forall e :: e in es ==> |e.sha| == SHA1_BYTES
    ensures p + |es| * INDEX_OBJECT_BYTES <= |d| && ReadObjects(d, p, |es|) == es
    decreases |es|
  {
    hide ObjectBytes, Read;
    ObjectsLength(es);
    if es != [] {
      assert es[0] in es && es == [es[0]] + es[1..];
      Split2(d, p, ObjectBytes(es[0]), Objects(es[1..]));
      ObjectReads(d, p, es[0]);
      ObjectWidth(es[0]);
      ObjectsRead(d, p + INDEX_OBJECT_BYTES, es[1..]);
    }
  }

  lemma ObjectWidth(e: IndexEntry)
    requires |e.sha| == SHA1_BYTES
    ensures |ObjectBytes(e)| == INDEX_OBJECT_BYTES
  {
    hide BigEndian;
  }

  /** A body followed by its trailer. */
  lemma WithTrailer(body: bytes, trailer: bytes)
    requires |body| >= 4
    ensures var d := body + trailer;
            d[..|body|] == body && d[|body|..] == trailer && At(d, 0, body) && d[..4] == body[..4]
  {
    AtPrefix(body, trailer);
  }

  lemma IndexBodyLength(es: seq<IndexEntry>)
    requires forall e :: e in es ==> |e.sha| == SHA1_BYTES
    ensures |IndexBody(es)| == OBJECTS_OFFSET + |es| * INDEX_OBJECT_BYTES && IndexBody(es)[..4] == PACK_INDEX_MAGIC
  {
    hide BigEndian, Table, Objects;
    TableLength(es, 0);
    ObjectsLength(es);
  }

  /** The parts of an index file, where the parser looks for them. */
  lemma IndexParts(d: bytes, es: seq<IndexEntry>)
    requires At(d, 0, IndexBody(es))
    ensures At(d, 4, BigEndian(FORMAT_VERSION, 4)) && At(d, 8, Table(es, 0)) && At(d, OBJECTS_OFFSET, Objects(es))
  {
    hide BigEndian, Table, Objects, At;
    TableLength(es, 0);
    Split4(d, 0, PACK_INDEX_MAGIC, BigEndian(FORMAT_VERSION, 4), Table(es, 0), Objects(es));
  }

  /**
   Parsing a built index gives the entries sorted by SHA-1, and each fanout slot counts the entries up to its byte.
  */
  lemma IndexRoundTrip(h: Hash, entries: seq<IndexEntry>)
    requires Is20(h) && Packable(entries) && forall e :: e in entries ==> |e.sha| == SHA1_BYTES
    ensures var sorted := Sort(BySha, entries);
            var d := IndexBody(sorted) + h(IndexBody(sorted));
            && IndexOf(h, d) == Ok(sorted)
            && Sorted(BySha, sorted) && multiset(sorted) == multiset(entries)
            && forall i :: 0 <= i < 256 ==> Read(d, 8 + 4 * i, 4) == CountUpTo(sorted, i)
  {
    hide Sort, BytesLess, Table, Objects, CountUpTo, BigEndian, Unsigned, Read, ReadObjects, IndexBody, At;
    var sorted := Sort(BySha, entries);
    var body := IndexBody(sorted);
    var d := body + h(body);
    ShaOrdered();
    SortSorts(BySha, entries);
    SortedSame(entries);
    IndexBodyLength(sorted);
    WithTrailer(body, h(body));
    IndexParts(d, sorted);
    SlotsRead(d, sorted);
    CountsAll(sorted);
    Pow256Values();
    ReadsBack(d, 4, FORMAT_VERSION, 4);
    ObjectsRead(d, OBJECTS_OFFSET, sorted);
    assert 8 + 255 * 4 == 8 + 4 * 255;
  }

  lemma SlotsRead(d: bytes, es: seq<IndexEntry>)
    requires At(d, 8, Table(es, 0)) && |es| < TWO_TO_32 && |d| >= OBJECTS_OFFSET
    ensures forall i :: 0 <= i < 256 ==> Read(d, 8 + 4 * i, 4) == CountUpTo(es, i)
  {
    hide Table, CountUpTo, BigEndian, Unsigned, Read, At;
    Pow256Values();
    forall i | 0 <= i < 256 ensures Read(d, 8 + 4 * i, 4) == CountUpTo(es, i) {
      TableAt(es, d, 8, 0, i);
      CountBound(es, i);
      ReadsBack(d, 8 + 4 * i, CountUpTo(es, i), 4);
    }
  }

  lemma {:induction false} CountBound(es: seq<IndexEntry>, first: int)
    ensures CountUpTo(es, first) <= |es|
    decreases |es|
  {
    if es != [] {
      CountBound(es[..|es| - 1], first);
    }
  }
}
