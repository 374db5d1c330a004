/** Recovering a pack's implicit index by scanning for the magic, and what the scan can and cannot see. */
module PackScan {
  import opened Wrappers
  import opened Bytes
  import opened Arqo

  datatype PackEntry = PackEntry(offset: nat, length: nat, truncated: bool)

  /** A ciphertext length an object can have: at least one AES block, whole blocks. */
  predicate GoodBody(length: int) {
    length - HEADER_BYTES >= 16 && (length - HEADER_BYTES) % 16 == 0
  }

  /** A place the scanner would end the entry that starts at `offset`. */
  predicate CutsAt(d: bytes, offset: nat, cand: nat) {
    MagicAt(d, cand) && GoodBody(cand - offset)
  }

  /** The first such place from `from` on, or the end of the pack. */
  function NextCut(d: bytes, offset: nat, from: nat): (end: nat)
    requires from <= |d|
    ensures from <= end <= |d| && (end < |d| ==> CutsAt(d, offset, end))
    ensures forall c: nat {:trigger CutsAt(d, offset, c)} :: from <= c < end ==> !CutsAt(d, offset, c)
    decreases |d| - from
  {
    if from == |d| || CutsAt(d, offset, from) then from else NextCut(d, offset, from + 1)
  }

  /** The entries from `offset` on. */
  function Entries(d: bytes, offset: nat): seq<PackEntry>
    requires offset <= |d|
    decreases |d| - offset
  {
    if offset == |d| then []
    else if offset + HEADER_BYTES > |d| then [PackEntry(offset, |d| - offset, true)]
    else
      var end := NextCut(d, offset, offset + 1);
      if GoodBody(end - offset) then [PackEntry(offset, end - offset, false)] + Entries(d, end)
      else [PackEntry(offset, end - offset, true)]
  }

  /** reconstruct_index; Err where it raises PackError. */
  method ReconstructIndex(d: bytes) returns (r: Result<seq<PackEntry>>)
    ensures r == if d == [] || ARQO_MAGIC <= d then Ok(Entries(d, 0)) else Err
    ensures r.Err? <==> d != [] && !([0x41, 0x52, 0x51, 0x4F] <= d)
    ensures r.Ok? ==> Tiles(d, 0, r.value)
  {
    ScanTiles(d);
    hide Tiles, MagicAt, CutsAt, NextCut;
    if |d| == 0 {
      return Ok([]);
    }
    if !(ARQO_MAGIC <= d) {
      return Err;
    }
    var entries: seq<PackEntry> := [];
    var offset, total := 0, |d|;
    while offset < total
      invariant 0 <= offset <= total
      invariant Entries(d, 0) == entries + Entries(d, offset)
    {
      if offset + HEADER_BYTES > total {
        return Ok(entries + [PackEntry(offset, total - offset, true)]);
      }
      var end := FindCut(d, offset);
      if !GoodBody(end - offset) {
        return Ok(entries + [PackEntry(offset, end - offset, true)]);
      }
      assert Entries(d, offset) == [PackEntry(offset, end - offset, false)] + Entries(d, end);
      entries := entries + [PackEntry(offset, end - offset, false)];
      offset := end;
    }
    assert Entries(d, offset) == [] && entries + [] == entries;
    return Ok(entries);
  }

  /** The inner search of reconstruct_index. */
  method FindCut(d: bytes, offset: nat) returns (end: nat)
    requires offset < |d|
    ensures end == NextCut(d, offset, offset + 1)
  {
    var searchFrom := offset + 1;
    while true
      invariant offset < searchFrom <= |d|
      invariant NextCut(d, offset, offset + 1) == NextCut(d, offset, searchFrom)
      decreases |d| - searchFrom
    {
      var cand := Find(d, searchFrom);
      if cand.None? {
        SkipTo(d, offset, searchFrom, |d|);
        return |d|;
      }
      SkipTo(d, offset, searchFrom, cand.value);
      if GoodBody(cand.value - offset) {
        return cand.value;
      }
      searchFrom := cand.value + 1;
    }
  }

  lemma {:induction false} SkipTo(d: bytes, offset: nat, from: nat, target: nat)
    requires from <= target <= |d| && forall c: nat :: from <= c < target ==> !MagicAt(d, c)
    ensures NextCut(d, offset, from) == NextCut(d, offset, target)
    decreases target - from
  {
    if from < target {
      assert !MagicAt(d, from);
      SkipTo(d, offset, from + 1, target);
    }
  }

  /* ---- Every index tiles its pack ---- */

  /**
   An object that starts at `offset` could end at c: the next magic is there, 116 bytes and whole blocks further on.
  */
  predicate CouldEnd(d: bytes, offset: nat, c: nat) {
    && c + 4 <= |d| && d[c..c + 4] == [0x41, 0x52, 0x51, 0x4F]
    && c >= offset + 132 && (c - offset - 116) % 16 == 0
  }

  /**
   Entries follow one another from `offset` to the end. Each starts with the magic and ends at the first place where it
   could, or with the pack; only the last may be torn, and is flagged exactly if its length is not an object's.
  */
  ghost predicate Tiles(d: bytes, offset: nat, es: seq<PackEntry>)
    decreases |es|
  {
    if es == [] then offset == |d|
    else
      var (e, end) := (es[0], offset + es[0].length);
      && e.offset == offset && e.length > 0 && end <= |d|
      && offset + 4 <= |d| && d[offset..offset + 4] == [0x41, 0x52, 0x51, 0x4F]
      && (e.truncated <==> e.length < 132 || (e.length - 116) % 16 != 0)
      && (end == |d| || CouldEnd(d, offset, end)) && (forall c: nat :: offset < c < end ==> !CouldEnd(d, offset, c))
      && Tiles(d, end, es[1..])
  }

  lemma CutsAreEnds(d: bytes, offset: nat)
    ensures forall c: nat :: c <= |d| ==> (CutsAt(d, offset, c) <==> CouldEnd(d, offset, c))
  {}

  /** Main result on the scan: for every pack that starts with the magic, its entries tile it, and nothing else does. */
  lemma {:induction false} EntriesTile(d: bytes, offset: nat)
    requires offset <= |d| && (offset < |d| ==> MagicAt(d, offset))
    ensures Tiles(d, offset, Entries(d, offset))
    decreases |d| - offset
  {
    if offset < |d| && offset + HEADER_BYTES <= |d| {
      var end := NextCut(d, offset, offset + 1);
      FirstEntry(d, offset);
      CutsAreEnds(d, offset);
      assert CutsAt(d, offset, end) || end == |d|;
      hide Entries, NextCut;
      if GoodBody(end - offset) {
        EntriesTile(d, end);
        assert Entries(d, offset)[1..] == Entries(d, end);
      } else {
        assert end == |d|;
        EmptyTiles(d);
      }
    } else if offset < |d| {
      TooShort(d, offset);
      EmptyTiles(d);
    }
  }

  lemma ScanTiles(d: bytes)
    ensures d == [] || ARQO_MAGIC <= d ==> Tiles(d, 0, Entries(d, 0))
  {
    hide Tiles, Entries;
    if d == [] || ARQO_MAGIC <= d {
      EntriesTile(d, 0);
    }
  }

  /** A pack has one tiling. */
  lemma {:induction false} OneTiling(d: bytes, offset: nat, a: seq<PackEntry>, b: seq<PackEntry>)
    requires Tiles(d, offset, a) && Tiles(d, offset, b)
    ensures a == b
    decreases |a|
  {
    hide CouldEnd;
    if a != [] && b != [] {
      var (ea, eb) := (offset + a[0].length, offset + b[0].length);
      assert ea == eb;
      OneTiling(d, ea, a[1..], b[1..]);
      assert a == [a[0]] + a[1..] && b == [b[0]] + b[1..];
    }
  }

  lemma EmptyTiles(d: bytes)
    ensures Tiles(d, |d|, [])
  {}

  lemma TooShort(d: bytes, offset: nat)
    requires offset < |d| < offset + HEADER_BYTES
    ensures Entries(d, offset) == [PackEntry(offset, |d| - offset, true)] && !GoodBody(|d| - offset)
  {}

  /* ---- When the index is the true one ---- */

  predicate WellFormed(o: bytes) { ARQO_MAGIC <= o && GoodBody(|o|) }

  predicate AllWellFormed(objects: seq<bytes>) { forall i :: 0 <= i < |objects| ==> WellFormed(objects[i]) }

  /** The index of objects packed back to back from `offset` on. */
  function Index(objects: seq<bytes>, offset: nat): seq<PackEntry> {
    if objects == [] then []
    else [PackEntry(offset, |objects[0]|, false)] + Index(objects[1..], offset + |objects[0]|)
  }

  /** Some object holds the magic at a distance from its start where an object could end. */
  predicate HoldsAlignedMagic(d: bytes, objects: seq<bytes>, offset: nat) {
    objects != [] &&
    ((exists c: nat {:trigger CutsAt(d, offset, c)} :: offset < c < offset + |objects[0]| && CutsAt(d, offset, c))
     || HoldsAlignedMagic(d, objects[1..], offset + |objects[0]|))
  }

  /**
   The scan finds exactly the object boundaries if and only if no object holds an aligned magic.
   (Keys play no part: the magic inside ciphertext is what decides.)
  */
  lemma {:induction false} IndexExactIff(d: bytes, objects: seq<bytes>, offset: nat)
    requires AllWellFormed(objects) && offset <= |d| && d[offset..] == Join(objects)
    ensures Entries(d, offset) == Index(objects, offset) <==> !HoldsAlignedMagic(d, objects, offset)
    decreases |objects|
  {
    if objects == [] {
      assert offset == |d|;
    } else {
      hide Entries, Index, HoldsAlignedMagic, AllWellFormed, Join, GoodBody, MagicAt, NextCut;
      var next, more := offset + |objects[0]|, objects[1..];
      var end := NextCut(d, offset, offset + 1);
      WithNoTail(d, objects, offset);
      FirstEntry(d, offset);
      IndexStep(objects, offset);
      HoldsStep(d, objects, offset);
      if end == next {
        IndexExactIff(d, more, next);
        SameTail(PackEntry(offset, next - offset, false), Entries(d, next), Index(more, next));
      } else {
        assert Entries(d, offset)[0].length == end - offset && Index(objects, offset)[0].length == next - offset;
      }
    }
  }

  lemma WithNoTail(d: bytes, objects: seq<bytes>, offset: nat)
    requires objects != [] && AllWellFormed(objects) && offset <= |d| && d[offset..] == Join(objects)
    ensures var next := offset + |objects[0]|;
            && offset + HEADER_BYTES < next <= |d| && d[next..] == Join(objects[1..]) && AllWellFormed(objects[1..])
            && GoodBody(next - offset) && (next == |d| || CutsAt(d, offset, next))
  {
    hide AllWellFormed, Join, MagicAt;
    assert Join(objects) + [] == Join(objects) && Join(objects[1..]) + [] == Join(objects[1..]);
    FirstObject(d, objects, [], offset);
    NextObjectCuts(d, objects, [], offset);
  }

  /** The first entry's end, when there is room for a header. */
  lemma FirstEntry(d: bytes, offset: nat)
    requires offset + HEADER_BYTES <= |d|
    ensures var end := NextCut(d, offset, offset + 1);
            && offset < end <= |d|
            && Entries(d, offset) == [PackEntry(offset, end - offset, !GoodBody(end - offset))]
                                     + if GoodBody(end - offset) then Entries(d, end) else []
  {}

  lemma IndexStep(objects: seq<bytes>, offset: nat)
    requires objects != []
    ensures Index(objects, offset) == [PackEntry(offset, |objects[0]|, false)]
        + Index(objects[1..], offset + |objects[0]|)
  {}

  lemma HoldsStep(d: bytes, objects: seq<bytes>, offset: nat)
    requires objects != [] && offset + |objects[0]| <= |d| && objects[0] != []
    requires var next := offset + |objects[0]|; next == |d| || CutsAt(d, offset, next)
    ensures var (end, next) := (NextCut(d, offset, offset + 1), offset + |objects[0]|);
            && end <= next
            && (HoldsAlignedMagic(d, objects, offset) <==> end != next || HoldsAlignedMagic(d, objects[1..], next))
  {
    hide CutsAt;
    var end := NextCut(d, offset, offset + 1);
    assert end < |d| ==> CutsAt(d, offset, end);
  }

  lemma SameTail(e: PackEntry, a: seq<PackEntry>, b: seq<PackEntry>)
    ensures [e] + a == [e] + b <==> a == b
  {
    assert ([e] + a)[1..] == a && ([e] + b)[1..] == b;
  }

  lemma SliceParts(d: bytes, offset: nat, first: bytes, rest: bytes)
    requires offset <= |d| && d[offset..] == first + rest
    ensures offset + |first| <= |d| && d[offset..offset + |first|] == first && d[offset + |first|..] == rest
  {
    var next := offset + |first|;
    assert |d| - offset == |first| + |rest|;
    assert d[offset..next] == d[offset..][..|first|];
    assert d[next..] == d[offset..][|first|..];
  }

  lemma StartsWithMagic(d: bytes, offset: nat)
    requires offset <= |d| && ARQO_MAGIC <= d[offset..]
    ensures MagicAt(d, offset)
  {
    assert d[offset..offset + 4] == d[offset..][..4];
  }

  lemma FirstObject(d: bytes, objects: seq<bytes>, tail: bytes, offset: nat)
    requires objects != [] && AllWellFormed(objects) && offset <= |d| && d[offset..] == Join(objects) + tail
    ensures var next := offset + |objects[0]|;
            && next <= |d| && d[next..] == Join(objects[1..]) + tail
            && MagicAt(d, offset) && GoodBody(next - offset) && AllWellFormed(objects[1..])
            && offset + HEADER_BYTES < next
  {
    hide MagicAt;
    assert WellFormed(objects[0]) && |objects[0]| > HEADER_BYTES;
    hide GoodBody;
    assert Join(objects) + tail == objects[0] + (Join(objects[1..]) + tail);
    SliceParts(d, offset, objects[0], Join(objects[1..]) + tail);
    StartsWithMagic(d, offset);
  }

  /** Where the next object, or a torn tail, starts is a place to cut, or the pack ends there. */
  lemma NextObjectCuts(d: bytes, objects: seq<bytes>, tail: bytes, offset: nat)
    requires objects != [] && AllWellFormed(objects) && (tail == [] || ARQO_MAGIC <= tail)
    requires offset <= |d| && d[offset..] == Join(objects) + tail
    ensures var next := offset + |objects[0]|; next == |d| || CutsAt(d, offset, next)
  {
    hide WellFormed, AllWellFormed, GoodBody, MagicAt, Join;
    var next, more := offset + |objects[0]|, objects[1..];
    FirstObject(d, objects, tail, offset);
    if more != [] {
      FirstObject(d, more, tail, next);
    } else {
      EmptyJoin(tail);
      if tail != [] {
        StartsWithMagic(d, next);
      }
    }
  }

  lemma EmptyJoin(tail: bytes)
    ensures Join([]) + tail == tail
  {}

  /**
   A pack torn behind a whole magic. Whole objects followed by the beginning of one more, at least its
   magic: the whole ones are indexed as before, and the tear is flagged exactly when it is not where an
   object could end.
  */
  lemma {:induction false} TornPack(d: bytes, objects: seq<bytes>, tail: bytes, offset: nat)
    requires AllWellFormed(objects) && ARQO_MAGIC <= tail
    requires offset <= |d| && d[offset..] == Join(objects) + tail
    requires !HoldsAlignedMagic(d, objects + [tail], offset)
    ensures Entries(d, offset) == Index(objects, offset) + [PackEntry(|d| - |tail|, |tail|, !GoodBody(|tail|))]
    decreases |objects|
  {
    hide NextCut, WellFormed, AllWellFormed, Entries, Join, MagicAt, HoldsAlignedMagic, GoodBody;
    if objects == [] {
      EmptyJoin(tail);
      TornTail(d, tail, offset);
      assert Index(objects, offset) == [];
    } else {
      var next, more := offset + |objects[0]|, objects[1..];
      TornHead(d, objects, tail, offset);
      TornPack(d, more, tail, next);
      FirstEntry(d, offset);
      IndexStep(objects, offset);
    }
  }

  /**
   A pack torn inside the magic: one to three bytes follow the last whole object. The scan does not see them, takes
   them for the end of that object, and flags it; only the objects before it are indexed as before.
  */
  lemma TornMagic(d: bytes, objects: seq<bytes>, last: bytes, tail: bytes, offset: nat)
    requires AllWellFormed(objects) && WellFormed(last) && 1 <= |tail| < |ARQO_MAGIC|
    requires offset <= |d| && d[offset..] == Join(objects) + (last + tail)
    requires !HoldsAlignedMagic(d, objects + [last + tail], offset)
    ensures Entries(d, offset) == Index(objects, offset) + [PackEntry(|d| - |last| - |tail|, |last| + |tail|, true)]
  {
    hide Entries, Index, HoldsAlignedMagic, Join, AllWellFormed;
    assert (last + tail)[..4] == last[..4];
    TornPack(d, objects, last + tail, offset);
  }

  lemma TornTail(d: bytes, tail: bytes, offset: nat)
    requires ARQO_MAGIC <= tail && offset <= |d| && d[offset..] == tail
    requires !HoldsAlignedMagic(d, [] + [tail], offset)
    ensures Entries(d, offset) == [PackEntry(offset, |tail|, !GoodBody(|tail|))]
  {
    assert ([] + [tail])[0] == tail;
    CutIsLimit(d, offset, |d|);
    assert Entries(d, |d|) == [];
  }

  lemma CutIsLimit(d: bytes, offset: nat, limit: nat)
    requires offset < limit <= |d| && (limit == |d| || CutsAt(d, offset, limit))
    requires !exists c: nat :: offset < c < limit && CutsAt(d, offset, c)
    ensures NextCut(d, offset, offset + 1) == limit
  {}

  lemma TornHead(d: bytes, objects: seq<bytes>, tail: bytes, offset: nat)
    requires objects != [] && AllWellFormed(objects) && ARQO_MAGIC <= tail
    requires offset <= |d| && d[offset..] == Join(objects) + tail
    requires !HoldsAlignedMagic(d, objects + [tail], offset)
    ensures var (next, more) := (offset + |objects[0]|, objects[1..]);
            && offset + HEADER_BYTES < next <= |d| && d[next..] == Join(more) + tail && AllWellFormed(more)
            && GoodBody(next - offset) && NextCut(d, offset, offset + 1) == next
            && !HoldsAlignedMagic(d, more + [tail], next)
  {
    hide NextCut, HoldsAlignedMagic, AllWellFormed, Join, MagicAt, GoodBody, CutsAt;
    FirstObject(d, objects, tail, offset);
    NextObjectCuts(d, objects, tail, offset);
    assert (objects + [tail])[0] == objects[0] && (objects + [tail])[1..] == objects[1..] + [tail];
    HoldsStep(d, objects + [tail], offset);
  }

  /* ---- The two verifiers ---- */

  function Starts(objects: seq<bytes>, offset: nat): (starts: seq<nat>)
    ensures |starts| == |objects|
  {
    if objects == [] then [] else [offset] + Starts(objects[1..], offset + |objects[0]|)
  }

  /** The pack's magics are its objects' starts, and there are no others. */
  ghost predicate OnlyStarts(objects: seq<bytes>) {
    && (forall i :: 0 <= i < |objects| ==> ARQO_MAGIC <= objects[i])
    && Positions(Join(objects)) == Starts(objects, 0)
  }

  /** The entry's slice of the pack passes the single-object check. */
  predicate EntryVerifies(mac: Mac, d: bytes, e: PackEntry) {
    e.offset + e.length <= |d| && VerifyObject(mac, d[e.offset..e.offset + e.length])
  }

  /**
   On a pack of well-formed objects whose only magics are their starts, the multi-object check reports
   no failure exactly when every slice that reconstruct_index finds passes the single-object check.
  */
  lemma VerifiersAgree(mac: Mac, objects: seq<bytes>)
    requires AllWellFormed(objects) && OnlyStarts(objects)
    ensures var d := Join(objects);
            (Failing(mac, d, Positions(d), |objects|) == []
             <==> forall e :: e in Entries(d, 0) ==> EntryVerifies(mac, d, e))
  {
    hide Positions, Entries, Join, AllWellFormed, VerifyObject, Starts, Failing, OnlyStarts, EntryVerifies;
    Bounded(objects);
    FailingIff(mac, objects);
    ScanFindsObjects(objects);
    IndexVerifies(mac, objects);
  }

  lemma ScanFindsObjects(objects: seq<bytes>)
    requires AllWellFormed(objects) && OnlyStarts(objects)
    ensures Entries(Join(objects), 0) == Index(objects, 0)
  {
    hide Entries, Join, AllWellFormed, Starts, Index;
    var d := Join(objects);
    assert d[0..] == d;
    NoInnerMagic(d, objects, 0);
    IndexExactIff(d, objects, 0);
  }

  /** The index's slices are the objects. */
  lemma IndexVerifies(mac: Mac, objects: seq<bytes>)
    ensures (forall e :: e in Index(objects, 0) ==> EntryVerifies(mac, Join(objects), e))
       <==> forall i :: 0 <= i < |objects| ==> VerifyObject(mac, objects[i])
  {
    hide Index, Join, VerifyObject;
    var d := Join(objects);
    IndexLength(objects, 0);
    forall i | 0 <= i < |objects| ensures EntryVerifies(mac, d, Index(objects, 0)[i])
      <==> VerifyObject(mac, objects[i])
    {
      IndexAt(objects, 0, i);
      ObjectSlice(objects, i);
    }
  }

  lemma {:induction false} IndexLength(objects: seq<bytes>, offset: nat)
    ensures |Index(objects, offset)| == |objects|
    decreases |objects|
  {
    if objects != [] {
      IndexLength(objects[1..], offset + |objects[0]|);
    }
  }

  lemma {:induction false} IndexAt(objects: seq<bytes>, offset: nat, i: nat)
    requires i < |objects|
    ensures |Index(objects, offset)| == |objects|
    ensures Index(objects, offset)[i] == PackEntry(offset + |Join(objects[..i])|, |objects[i]|, false)
    ensures |Join(objects[..i + 1])| == |Join(objects[..i])| + |objects[i]|
    decreases |objects|
  {
    IndexLength(objects, offset);
    assert objects[..i + 1] == objects[..i] + [objects[i]];
    JoinAppend(objects[..i], objects[i]);
    if i > 0 {
      IndexAt(objects[1..], offset + |objects[0]|, i - 1);
      assert objects[..i][1..] == objects[1..][..i - 1];
    }
  }

  lemma Bounded(objects: seq<bytes>)
    requires AllWellFormed(objects)
    ensures forall i :: 0 <= i < |objects| ==> |objects[i]| >= HEADER_BYTES
  {
    forall i | 0 <= i < |objects| ensures |objects[i]| >= HEADER_BYTES {
      assert WellFormed(objects[i]);
    }
  }

  /** If every magic is a start, no object holds one inside. */
  lemma {:induction false} NoInnerMagic(d: bytes, objects: seq<bytes>, offset: nat)
    requires AllWellFormed(objects) && forall c: nat :: offset <= c && MagicAt(d, c) ==> c in Starts(objects, offset)
    ensures !HoldsAlignedMagic(d, objects, offset)
    decreases |objects|
  {
    hide MagicAt, GoodBody;
    if objects != [] {
      var next := offset + |objects[0]|;
      StartsAre(objects[1..], next);
      assert forall c :: c in Starts(objects, offset) ==> c == offset || c in Starts(objects[1..], next);
      assert WellFormed(objects[0]);
      NoInnerMagic(d, objects[1..], next);
    }
  }

  /** The multi-object check passes exactly the objects that pass the single-object check, and short ones besides. */
  lemma FailingIff(mac: Mac, objects: seq<bytes>)
    requires OnlyStarts(objects)
    ensures var (d, fails) := (Join(objects), Failing(mac, Join(objects), Positions(Join(objects)), |objects|));
            && ((forall i :: 0 <= i < |objects| ==> |objects[i]| >= HEADER_BYTES)
                  ==> (fails == [] <==> forall i :: 0 <= i < |objects| ==> VerifyObject(mac, objects[i])))
            && ((forall i :: 0 <= i < |objects| ==> VerifyObject(mac, objects[i])) ==> fails == [])
  {
    hide Positions, InnerOk, VerifyObject, Starts, Join, EndOf;
    var (d, starts) := (Join(objects), Starts(objects, 0));
    forall i | 0 <= i < |objects|
      ensures VerifyObject(mac, objects[i])
          <==> InnerOk(mac, d, starts[i], EndOf(d, starts, i)) && |objects[i]| >= HEADER_BYTES
    {
      ChecksAgree(mac, objects, i);
    }
  }

  /**
   The multi-object check has no minimum length. With objects of any length it agrees with the
   single-object check if and only if no object is shorter than a header or some object fails.
  */
  lemma ChecksAgreeIff(mac: Mac, objects: seq<bytes>)
    requires OnlyStarts(objects)
    ensures var fails := Failing(mac, Join(objects), Positions(Join(objects)), |objects|);
            (fails == [] <==> forall i :: 0 <= i < |objects| ==> VerifyObject(mac, objects[i]))
            <==> ((forall i :: 0 <= i < |objects| ==> |objects[i]| >= HEADER_BYTES) || fails != [])
  {
    FailingIff(mac, objects);
    hide Positions, Failing, Starts, Join;
    forall i | 0 <= i < |objects| && VerifyObject(mac, objects[i]) ensures |objects[i]| >= HEADER_BYTES {}
  }

  lemma OneObject(objects: seq<bytes>)
    requires |objects| == 1
    ensures Join(objects) == objects[0] && Starts(objects, 0) == [0]
  {
    assert objects[1..] == [];
    assert Starts(objects[1..], |objects[0]|) == [];
    assert Starts(objects, 0) == [0] + Starts(objects[1..], 0 + |objects[0]|);
  }

  /** An object of 36 bytes, the magic and a matching digest, that one check passes and the other does not. */
  lemma ShortObjectPasses() returns (mac: Mac, o: bytes)
    ensures |o| == 36 && OnlyStarts([o]) && Join([o]) == o
    ensures Failing(mac, o, Positions(o), 1) == [] && !VerifyObject(mac, o)
  {
    var zeros: bytes := seq(HMAC_BYTES, _ => 0);
    mac, o := _ => zeros, ARQO_MAGIC + zeros;
    OneObject([o]);
    forall k: nat ensures MagicAt(o, k) <==> k == 0 {
      if MagicAt(o, k) {
        assert o[k] == o[k..k + 4][0] == 0x41;
      }
    }
    SamePositions(o, [0], Positions(o));
    assert InnerOk(mac, o, 0, |o|);
  }

  lemma ChecksAgree(mac: Mac, objects: seq<bytes>, i: nat)
    requires i < |objects| && ARQO_MAGIC <= objects[i]
    ensures var (d, starts) := (Join(objects), Starts(objects, 0));
            (VerifyObject(mac, objects[i])
             <==> InnerOk(mac, d, starts[i], EndOf(d, starts, i)) && |objects[i]| >= HEADER_BYTES)
  {
    hide Join, Starts, VerifyObject, InnerOk;
    var (d, starts) := (Join(objects), Starts(objects, 0));
    StartsAre(objects, 0);
    ObjectSlice(objects, i);
    SameCheck(mac, d, starts[i], EndOf(d, starts, i), objects[i]);
  }

  lemma SameCheck(mac: Mac, d: bytes, pos: nat, end: nat, o: bytes)
    requires pos <= end <= |d| && d[pos..end] == o && ARQO_MAGIC <= o
    ensures VerifyObject(mac, o) <==> InnerOk(mac, d, pos, end) && |o| >= HEADER_BYTES
  {
    if |o| >= HEADER_BYTES {
      Reslice(d, pos, end, HMAC_BODY_OFFSET, end - pos);
      Reslice(d, pos, end, HMAC_OFFSET, HMAC_OFFSET + HMAC_BYTES);
    }
  }

  lemma Reslice(d: bytes, pos: nat, end: nat, lo: nat, hi: nat)
    requires pos <= end <= |d| && lo <= hi <= end - pos
    ensures d[pos..end][lo..hi] == d[pos + lo..pos + hi]
  {
    var w, part, whole := d[pos..end], d[pos..end][lo..hi], d[pos + lo..pos + hi];
    forall k | 0 <= k < hi - lo ensures part[k] == whole[k] {
      assert part[k] == w[lo + k] == d[pos + (lo + k)];
    }
  }

  lemma {:induction false} StartsAre(objects: seq<bytes>, offset: nat)
    ensures |Starts(objects, offset)| == |objects|
    ensures forall i :: 0 <= i < |objects| ==> Starts(objects, offset)[i] == offset + |Join(objects[..i])|
    decreases |objects|
  {
    if objects != [] {
      StartsAre(objects[1..], offset + |objects[0]|);
      forall i | 0 <= i < |objects| ensures Starts(objects, offset)[i] == offset + |Join(objects[..i])| {
        if i > 0 {
          assert objects[..i][1..] == objects[1..][..i - 1];
        }
      }
    }
  }

  /** Object i is the slice of the pack between the joined lengths before and after it. */
  lemma {:induction false} ObjectSlice(objects: seq<bytes>, i: nat)
    requires i < |objects|
    ensures var (a, b) := (|Join(objects[..i])|, |Join(objects[..i + 1])|);
            a <= b <= |Join(objects)| && Join(objects)[a..b] == objects[i]
                && (i + 1 == |objects| ==> b == |Join(objects)|)
    decreases |objects|
  {
    assert objects[..i + 1] == objects[..i] + [objects[i]];
    JoinAppend(objects[..i], objects[i]);
    JoinSplit(objects, i + 1);
    assert objects[..|objects|] == objects;
  }

  lemma {:induction false} JoinSplit(objects: seq<bytes>, i: nat)
    requires i <= |objects|
    ensures Join(objects) == Join(objects[..i]) + Join(objects[i..])
    decreases |objects|
  {
    if i > 0 {
      assert objects[..i][1..] == objects[1..][..i - 1] && objects[1..][i - 1..] == objects[i..];
      JoinSplit(objects[1..], i - 1);
    } else {
      assert objects[i..] == objects;
    }
  }
}
