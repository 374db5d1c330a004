/** 32-bit words as their bits, most significant first: exclusive or, shifts and left rotation. */
module Words {
  const WORD_BITS: nat := 32

  type Word = w: seq<bool> | |w| == WORD_BITS witness seq(WORD_BITS, _ => false)

  function Zeros(n: nat): seq<bool> { seq(n, _ => false) }

  const ZERO: Word := Zeros(WORD_BITS)

  function Xor(x: Word, y: Word): Word { seq(WORD_BITS, i requires 0 <= i < WORD_BITS => x[i] != y[i]) }

  function Or(x: Word, y: Word): Word { seq(WORD_BITS, i requires 0 <= i < WORD_BITS => x[i] || y[i]) }

  predicate NoCommonBit(x: Word, y: Word) { forall i :: 0 <= i < WORD_BITS ==> !(x[i] && y[i]) }

  function ShiftLeft(x: Word, n: nat): Word
    requires n <= WORD_BITS
  {
    x[n..] + Zeros(n)
  }

  function ShiftRight(x: Word, n: nat): Word
    requires n <= WORD_BITS
  {
    Zeros(n) + x[..WORD_BITS - n]
  }

  function Rol(x: Word, n: nat): Word {
    var k := n % WORD_BITS;
    if k == 0 then x else Or(ShiftLeft(x, k), ShiftRight(x, WORD_BITS - k))
  }

  lemma RolMovesBits(x: Word, n: nat)
    ensures var k := n % WORD_BITS; Rol(x, n) == x[k..] + x[..k]
  {}

  /** Rotating by one place more is one turn more, also where the amount wraps at 32. */
  lemma RolStep(x: Word, n: nat)
    ensures Rol(x, n + 1) == Rol(Rol(x, n), 1)
  {
    hide Rol;
    var k := n % WORD_BITS;
    assert (n + 1) % WORD_BITS == if k < 31 then k + 1 else 0;
    RolMovesBits(x, n);
    RolMovesBits(x, n + 1);
    RolMovesBits(Rol(x, n), 1);
  }

  lemma RolXor(x: Word, y: Word)
    ensures Rol(Xor(x, y), 1) == Xor(Rol(x, 1), Rol(y, 1)) && Rol(ZERO, 1) == ZERO && Rol(x, 0) == x
  {
    hide Rol;
    RolMovesBits(x, 0);
    RolMovesBits(x, 1);
    RolMovesBits(y, 1);
    RolMovesBits(Xor(x, y), 1);
    RolMovesBits(ZERO, 1);
  }

  lemma XorLaws(x: Word, y: Word, z: Word)
    ensures Xor(Xor(x, y), z) == Xor(x, Xor(y, z)) && Xor(x, y) == Xor(y, x)
    ensures Xor(x, ZERO) == x
  {}

  lemma XorCancel(x: Word, y: Word, z: Word)
    ensures Xor(Xor(Xor(x, y), x), z) == Xor(y, z)
  {}
}

/** The Buzhash content-defined chunker: rolling hash, boundary search, and what the cuts depend on. */
module Chunker {
  import opened Bytes
  import opened Words

  datatype Config = Config(window: nat, mask: Word, minSize: nat, maxSize: nat, table: seq<Word>) {
    /** What the constructor demands before it accepts a configuration. */
    predicate Valid() {
      1 <= window <= minSize <= maxSize && |table| == 256
    }
  }

  /** The hash of a whole window, by its formula. */
  function WindowHash(c: Config, w: bytes): Word
    requires c.Valid()
  {
    if w == [] then ZERO else Xor(Rol(c.table[w[0]], |w| - 1), WindowHash(c, w[1..]))
  }

  /** One step of the rolling hash. */
  function Slide(c: Config, h: Word, byteOut: byte, byteIn: byte): Word
    requires c.Valid()
  {
    Xor(Xor(Rol(h, 1), Rol(c.table[byteOut], c.window)), c.table[byteIn])
  }

  /** Appending a byte to a window rotates its hash by one and adds the byte's word. */
  lemma {:induction false} HashAppend(c: Config, w: bytes, x: byte)
    requires c.Valid()
    ensures WindowHash(c, w + [x]) == Xor(Rol(WindowHash(c, w), 1), c.table[x])
  {
    hide Rol, Xor;
    RolXor(c.table[x], ZERO);
    if w == [] {
      assert (w + [x])[1..] == [];
      XorLaws(c.table[x], ZERO, ZERO);
    } else {
      var t := c.table[w[0]];
      assert (w + [x])[1..] == w[1..] + [x];
      HashAppend(c, w[1..], x);
      RolStep(t, |w| - 1);
      RolXor(Rol(t, |w| - 1), WindowHash(c, w[1..]));
      XorLaws(Rol(t, |w|), Rol(WindowHash(c, w[1..]), 1), c.table[x]);
    }
  }

  /** The rolling step is the hash of the window moved on by one byte. */
  lemma SlideIsWindowHash(c: Config, w: bytes, byteIn: byte)
    requires c.Valid() && |w| == c.window
    ensures Slide(c, WindowHash(c, w), w[0], byteIn) == WindowHash(c, w[1..] + [byteIn])
  {
    hide Rol, Xor;
    var t, rest := c.table[w[0]], WindowHash(c, w[1..]);
    HashAppend(c, w[1..], byteIn);
    RolStep(t, |w| - 1);
    RolXor(Rol(t, |w| - 1), rest);
    XorCancel(Rol(t, |w|), Rol(rest, 1), c.table[byteIn]);
  }

  /* ---- Where a chunk ends, without any rolling ---- */

  predicate Boundary(c: Config, data: bytes, e: nat)
    requires c.Valid() && c.window <= e <= |data|
  {
    NoCommonBit(WindowHash(c, data[e - c.window..e]), c.mask)
  }

  function FirstBoundary(c: Config, data: bytes, from: nat, limit: nat): (e: nat)
    requires c.Valid() && c.window <= from <= limit <= |data|
    ensures from <= e <= limit
    decreases limit - from
  {
    if from == limit || Boundary(c, data, from) then from else FirstBoundary(c, data, from + 1, limit)
  }

  lemma {:induction false} FirstBoundaryIsFirst(c: Config, data: bytes, from: nat, limit: nat)
    requires c.Valid() && c.window <= from <= limit <= |data|
    ensures var e := FirstBoundary(c, data, from, limit);
            && (e < limit ==> Boundary(c, data, e))
            && forall k :: from <= k < e ==> !Boundary(c, data, k)
    decreases limit - from
  {
    hide Boundary;
    if from < limit && !Boundary(c, data, from) {
      FirstBoundaryIsFirst(c, data, from + 1, limit);
    }
  }

  function Min(a: nat, b: nat): nat { if a < b then a else b }

  /** The end of the chunk that starts at `start`. */
  function Cut(c: Config, data: bytes, start: nat): (e: nat)
    requires c.Valid() && start < |data|
    ensures start < e <= |data| && e - start <= c.maxSize
    ensures e < |data| ==> e - start >= c.minSize
  {
    var maxEnd := Min(start + c.maxSize, |data|);
    if maxEnd - start < c.minSize then maxEnd
    else FirstBoundary(c, data, start + c.minSize, maxEnd)
  }

  /**
   A chunk ends at the first boundary from its minimum size on, or else at its maximum size or with the data; if less
   than the minimum is left, that is the last chunk.
  */
  lemma CutIsFirst(c: Config, data: bytes, start: nat)
    requires c.Valid() && start < |data|
    ensures var e := Cut(c, data, start);
            if |data| - start < c.minSize then e == |data|
            else
              && start + c.minSize <= e <= |data| && e <= start + c.maxSize
              && (e == |data| || e == start + c.maxSize || Boundary(c, data, e))
              && forall k :: start + c.minSize <= k < e ==> !Boundary(c, data, k)
  {
    hide FirstBoundary, Boundary;
    var limit := Min(start + c.maxSize, |data|);
    if limit - start >= c.minSize {
      FirstBoundaryIsFirst(c, data, start + c.minSize, limit);
    }
  }

  function Chunks(c: Config, data: bytes, start: nat): seq<bytes>
    requires c.Valid() && start <= |data|
    decreases |data| - start
  {
    if start == |data| then []
    else [data[start..Cut(c, data, start)]] + Chunks(c, data, Cut(c, data, start))
  }

  /* ---- The chunker itself ---- */

  class Buzhash {
    const config: Config

    ghost predicate Valid() { config.Valid() }

    constructor (config: Config)
      requires config.Valid()
      ensures Valid() && this.config == config
    {
      this.config := config;
    }

    method InitialHash(window: bytes) returns (h: Word)
      requires Valid() && |window| == config.window
      ensures h == WindowHash(config, window)
    {
      hide Rol, Xor;
      h := ZERO;
      var i := 0;
      XorLaws(WindowHash(config, window), ZERO, ZERO);
      while i < |window|
        invariant 0 <= i <= |window|
        invariant WindowHash(config, window) == Xor(h, WindowHash(config, window[i..]))
      {
        XorLaws(h, Rol(config.table[window[i]], |window| - 1 - i), WindowHash(config, window[i + 1..]));
        assert window[i..][1..] == window[i + 1..];
        h := Xor(h, Rol(config.table[window[i]], |window| - 1 - i));
        i := i + 1;
      }
      XorLaws(h, ZERO, ZERO);
    }

    /** The inner search of chunk: seed at the minimum size, then roll to the first boundary. */
    method FindEnd(data: bytes, start: nat) returns (e: nat)
      requires Valid() && start < |data|
      ensures e == Cut(config, data, start)
    {
      hide Rol, WindowHash, Slide, NoCommonBit;
      var maxEnd := Min(start + config.maxSize, |data|);
      var minEnd := Min(start + config.minSize, |data|);
      if maxEnd - start < config.minSize {
        return maxEnd;
      }
      var win := config.window;
      var h := InitialHash(data[minEnd - win..minEnd]);
      if NoCommonBit(h, config.mask) {
        return minEnd;
      }
      e := minEnd;
      while e < maxEnd
        invariant minEnd <= e <= maxEnd
        invariant h == WindowHash(config, data[e - win..e])
        invariant e == maxEnd || !Boundary(config, data, e)
        invariant Cut(config, data, start) == FirstBoundary(config, data, e, maxEnd)
      {
        var w := data[e - win..e];
        SlideIsWindowHash(config, w, data[e]);
        assert w[1..] + [data[e]] == data[e + 1 - win..e + 1];
        h := Slide(config, h, data[e - win], data[e]);
        e := e + 1;
        if NoCommonBit(h, config.mask) {
          return;
        }
      }
    }

    method Chunk(data: bytes) returns (chunks: seq<bytes>)
      requires Valid()
      ensures chunks == Chunks(config, data, 0)
    {
      chunks := [];
      if |data| == 0 {
        return;
      }
      if |data| <= config.minSize {
        assert Cut(config, data, 0) == |data|;
        assert data[0..|data|] == data;
        return [data];
      }
      var start := 0;
      while start < |data|
        invariant 0 <= start <= |data|
        invariant Chunks(config, data, 0) == chunks + Chunks(config, data, start)
      {
        var e := FindEnd(data, start);
        assert Chunks(config, data, start) == [data[start..e]] + Chunks(config, data, e);
        chunks := chunks + [data[start..e]];
        start := e;
      }
    }
  }

  /* ---- What the cuts guarantee ---- */

  /** Loss-free: the chunks are non-empty, bounded, at least the minimum but for the last, and join to the data. */
  lemma {:induction false} ChunksJoin(c: Config, data: bytes, start: nat)
    requires c.Valid() && start <= |data|
    ensures Join(Chunks(c, data, start)) == data[start..]
    ensures var cs := Chunks(c, data, start);
            && |cs| <= |data| - start
            && (forall i :: 0 <= i < |cs| ==> 0 < |cs[i]| <= c.maxSize)
            && (forall i :: 0 <= i < |cs| - 1 ==> |cs[i]| >= c.minSize)
    decreases |data| - start
  {
    if start < |data| {
      var e := Cut(c, data, start);
      ChunksJoin(c, data, e);
      assert data[start..] == data[start..e] + data[e..];
      assert Chunks(c, data, start)[1..] == Chunks(c, data, e);
    }
  }

  /** A cut looks only at what follows the chunk's start. */
  lemma CutIsLocal(c: Config, a: bytes, a': bytes, tail: bytes)
    requires c.Valid() && tail != []
    ensures Cut(c, a + tail, |a|) - |a| == Cut(c, a' + tail, |a'|) - |a'|
  {
    hide FirstBoundary;
    var maxEnd := Min(c.maxSize, |tail|);
    if maxEnd >= c.minSize {
      BoundaryIsLocal(c, a, tail, c.minSize, maxEnd);
      BoundaryIsLocal(c, a', tail, c.minSize, maxEnd);
    }
  }

  lemma {:induction false} BoundaryIsLocal(c: Config, a: bytes, tail: bytes, from: nat, limit: nat)
    requires c.Valid() && c.window <= from <= limit <= |tail|
    ensures FirstBoundary(c, a + tail, |a| + from, |a| + limit) == |a| + FirstBoundary(c, tail, from, limit)
    decreases limit - from
  {
    hide WindowHash;
    var d := a + tail;
    assert d[|a| + from - c.window..|a| + from] == tail[from - c.window..from];
    assert Boundary(c, d, |a| + from) == Boundary(c, tail, from);
    if from < limit && !Boundary(c, tail, from) {
      BoundaryIsLocal(c, a, tail, from + 1, limit);
      assert |a| + from + 1 == |a| + (from + 1);
    }
  }

  /**
   Dedup after an edit: once two files have a cut at the start of a common tail, whatever
   preceded it, every later chunk is the same in both.
  */
  lemma {:induction false} CommonTailChunksAlike(c: Config, a: bytes, a': bytes, tail: bytes)
    requires c.Valid()
    ensures Chunks(c, a + tail, |a|) == Chunks(c, a' + tail, |a'|)
    decreases |tail|
  {
    if tail != [] {
      hide Cut;
      CutIsLocal(c, a, a', tail);
      var k := Cut(c, a + tail, |a|) - |a|;
      var d, d' := a + tail, a' + tail;
      assert d[|a|..|a| + k] == tail[..k] == d'[|a'|..|a'| + k];
      assert d == (a + tail[..k]) + tail[k..];
      assert d' == (a' + tail[..k]) + tail[k..];
      CommonTailChunksAlike(c, a + tail[..k], a' + tail[..k], tail[k..]);
    }
  }

  /** The places where data is cut from `start` on, both ends included. */
  function CutsFrom(c: Config, data: bytes, start: nat): seq<nat>
    requires c.Valid() && start <= |data|
    decreases |data| - start
  {
    [start] + if start == |data| then [] else CutsFrom(c, data, Cut(c, data, start))
  }

  /** The first cut at or after `from`, among those from `start` on. */
  function FirstCut(c: Config, data: bytes, start: nat, from: nat): (e: nat)
    requires c.Valid() && start <= |data| && from <= |data|
    ensures from <= e <= |data|
    decreases |data| - start
  {
    if start >= from then start else FirstCut(c, data, Cut(c, data, start), from)
  }

  /** The stream is cut in its tail, at this offset of the tail. */
  ghost predicate CutInTail(c: Config, a: bytes, tail: bytes, k: nat)
    requires c.Valid()
  {
    HasOffset(CutsFrom(c, a + tail, 0), |a|, k)
  }

  /** The offset of the first cut in the tail, and the chunks from there on. */
  function TailStart(c: Config, a: bytes, tail: bytes): (k: nat)
    requires c.Valid()
    ensures k <= |tail|
  {
    FirstCut(c, a + tail, 0, |a|) - |a|
  }

  function TailChunks(c: Config, a: bytes, tail: bytes): seq<bytes>
    requires c.Valid()
  {
    Chunks(c, a + tail, |a| + TailStart(c, a, tail))
  }

  /** Both streams are cut at the same offsets of their common tail. */
  ghost predicate TailCutAlike(c: Config, a: bytes, a': bytes, tail: bytes)
    requires c.Valid()
  {
    forall k: nat :: CutInTail(c, a, tail, k) <==> CutInTail(c, a', tail, k)
  }

  predicate HasOffset(cuts: seq<nat>, n: nat, k: nat) { n + k in cuts }

  lemma {:induction false} CutsAfter(c: Config, data: bytes, start: nat)
    requires c.Valid() && start <= |data|
    ensures forall p :: p in CutsFrom(c, data, start) ==> start <= p <= |data|
    decreases |data| - start
  {
    if start < |data| {
      CutsAfter(c, data, Cut(c, data, start));
    }
  }

  /** From the first cut at or after `from`, the cuts go on as if the chunking had started there. */
  lemma {:induction false} CutsSplit(c: Config, data: bytes, start: nat, from: nat)
    requires c.Valid() && start <= |data| && from <= |data|
    ensures var e := FirstCut(c, data, start, from);
            && e in CutsFrom(c, data, start)
            && forall p :: from <= p ==> (p in CutsFrom(c, data, start) <==> p in CutsFrom(c, data, e))
    decreases |data| - start
  {
    if start < from {
      var next := Cut(c, data, start);
      assert CutsFrom(c, data, start) == [start] + CutsFrom(c, data, next);
      hide Cut;
      CutsSplit(c, data, next, from);
    }
  }

  /** The same offsets, counted from n in one list and from n' in the other. */
  ghost predicate SameOffsets(cs: seq<nat>, cs': seq<nat>, n: nat, n': nat) {
    |cs| == |cs'| && forall i :: 0 <= i < |cs| ==> cs[i] - n == cs'[i] - n'
  }

  lemma OffsetsCons(cs: seq<nat>, cs': seq<nat>, n: nat, n': nat, k: nat)
    requires SameOffsets(cs, cs', n + k, n' + k)
    ensures SameOffsets([n] + cs, [n'] + cs', n, n')
  {
    forall i | 0 <= i < |cs| ensures cs[i] - n == cs'[i] - n' {
      assert cs[i] - (n + k) == cs'[i] - (n' + k);
    }
  }

  lemma CutsStep(c: Config, data: bytes, start: nat)
    requires c.Valid() && start <= |data|
    ensures CutsFrom(c, data, start)
         == [start] + if start == |data| then [] else CutsFrom(c, data, Cut(c, data, start))
  {}

  /** Once two streams have a cut at the start of a common tail, all their later cuts are at the same offsets. */
  lemma {:induction false} CommonTailCutsAlike(c: Config, a: bytes, a': bytes, tail: bytes)
    requires c.Valid()
    ensures SameOffsets(CutsFrom(c, a + tail, |a|), CutsFrom(c, a' + tail, |a'|), |a|, |a'|)
    decreases |tail|
  {
    hide Cut, CutsFrom, SameOffsets;
    var (d, d') := (a + tail, a' + tail);
    CutsStep(c, d, |a|);
    CutsStep(c, d', |a'|);
    if tail == [] {
      NoOffsets(|a|, |a'|);
      OffsetsCons([], [], |a|, |a'|, 0);
    } else {
      CutIsLocal(c, a, a', tail);
      var k := Cut(c, d, |a|) - |a|;
      assert d == (a + tail[..k]) + tail[k..] && d' == (a' + tail[..k]) + tail[k..];
      assert |a + tail[..k]| == |a| + k && |a' + tail[..k]| == |a'| + k;
      CommonTailCutsAlike(c, a + tail[..k], a' + tail[..k], tail[k..]);
      OffsetsCons(CutsFrom(c, d, |a| + k), CutsFrom(c, d', |a'| + k), |a|, |a'|, k);
    }
  }

  lemma NoOffsets(n: nat, n': nat)
    ensures SameOffsets([], [], n, n')
  {}

  /**
   Identical content is cut alike exactly from a common cut on. Two streams that end in the same tail have the
   same cuts in it if and only if their first cuts in it are the same; the chunks from there on are then equal.
  */
  lemma TailCutsAlikeIff(c: Config, a: bytes, a': bytes, tail: bytes)
    requires c.Valid()
    ensures TailCutAlike(c, a, a', tail) <==> TailStart(c, a, tail) == TailStart(c, a', tail)
    ensures TailStart(c, a, tail) == TailStart(c, a', tail) ==> TailChunks(c, a, tail) == TailChunks(c, a', tail)
  {
    hide TailChunks, TailStart, TailCutAlike;
    if TailStart(c, a, tail) == TailStart(c, a', tail) {
      AlikeFromCommonCut(c, a, a', tail, TailStart(c, a, tail));
    }
    if TailCutAlike(c, a, a', tail) {
      SameFirstCut(c, a, a', tail);
    }
  }

  lemma SameFirstCut(c: Config, a: bytes, a': bytes, tail: bytes)
    requires c.Valid() && TailCutAlike(c, a, a', tail)
    ensures TailStart(c, a, tail) == TailStart(c, a', tail)
  {
    hide FirstCut, CutInTail, TailStart;
    FirstCutInTail(c, a, tail);
    FirstCutInTail(c, a', tail);
  }

  /** The first cut in the tail is one, and none comes before it. */
  lemma FirstCutInTail(c: Config, a: bytes, tail: bytes)
    requires c.Valid()
    ensures var k := TailStart(c, a, tail);
            CutInTail(c, a, tail, k) && forall j: nat :: j < k ==> !CutInTail(c, a, tail, j)
  {
    hide CutsFrom, FirstCut;
    CutsSplit(c, a + tail, 0, |a|);
    NoEarlierCut(c, a + tail, 0, |a|);
  }

  /** In the tail the cuts are those from the first cut in it on. */
  lemma TailCuts(c: Config, a: bytes, tail: bytes)
    requires c.Valid()
    ensures var e := FirstCut(c, a + tail, 0, |a|);
            forall j: nat :: CutInTail(c, a, tail, j) <==> HasOffset(CutsFrom(c, a + tail, e), |a|, j)
  {
    hide CutsFrom, FirstCut;
    CutsSplit(c, a + tail, 0, |a|);
  }

  lemma AlikeFromCommonCut(c: Config, a: bytes, a': bytes, tail: bytes, k: nat)
    requires c.Valid()
    requires TailStart(c, a, tail) == k == TailStart(c, a', tail)
    ensures TailCutAlike(c, a, a', tail) && TailChunks(c, a, tail) == TailChunks(c, a', tail)
  {
    hide CutsFrom, FirstCut, Chunks, CutInTail, HasOffset;
    var (d, d') := (a + tail, a' + tail);
    TailCuts(c, a, tail);
    TailCuts(c, a', tail);
    assert d == (a + tail[..k]) + tail[k..] && d' == (a' + tail[..k]) + tail[k..];
    CommonTailCutsAlike(c, a + tail[..k], a' + tail[..k], tail[k..]);
    CommonTailChunksAlike(c, a + tail[..k], a' + tail[..k], tail[k..]);
    ShiftBoth(CutsFrom(c, d, |a| + k), CutsFrom(c, d', |a'| + k), |a|, |a'|, k);
  }

  lemma ShiftBoth(cs: seq<nat>, cs': seq<nat>, n: nat, n': nat, m: nat)
    requires SameOffsets(cs, cs', n + m, n' + m)
    ensures forall k: nat :: HasOffset(cs, n, k) <==> HasOffset(cs', n', k)
  {
    forall k: nat ensures HasOffset(cs, n, k) <==> HasOffset(cs', n', k) {
      if n + k in cs {
        var i :| 0 <= i < |cs| && cs[i] == n + k;
        assert cs'[i] == n' + k;
      }
      if n' + k in cs' {
        var i :| 0 <= i < |cs'| && cs'[i] == n' + k;
        assert cs[i] == n + k;
      }
    }
  }

  lemma NoEarlierCut(c: Config, data: bytes, start: nat, from: nat)
    requires c.Valid() && start <= |data| && from <= |data|
    ensures forall p :: from <= p < FirstCut(c, data, start, from) ==> p !in CutsFrom(c, data, start)
  {
    hide CutsFrom, FirstCut;
    CutsSplit(c, data, start, from);
    CutsAfter(c, data, FirstCut(c, data, start, from));
  }

  lemma OddHashesNeverCut(c: Config, odd: Word, data: bytes, e: nat)
    requires c.Valid() && c.window == 1 && c.mask == odd && odd[31] && 1 <= e <= |data|
    requires forall b: byte :: c.table[b] == odd
    ensures !Boundary(c, data, e)
  {
    hide Rol, Xor;
    var w := data[e - 1..e];
    RolXor(odd, ZERO);
    XorLaws(odd, ZERO, ZERO);
    assert w[1..] == [] && WindowHash(c, w) == odd;
  }

  /**
   The same content can be cut differently where the streams have no common cut before it: with
   no hash boundary every chunk is cut at the maximum, so one byte in front moves every cut.
  */
  lemma SameContentDifferentChunks() returns (c: Config, x: byte, s: bytes)
    ensures c.Valid() && |s| == 3
    ensures Chunks(c, s, 0) == [s[..2], s[2..]]
    ensures Chunks(c, [x] + s, 0) == [[x] + s[..1], s[1..]]
  {
    hide Rol, Xor;
    var odd: Word := Zeros(31) + [true];
    c, x, s := Config(1, odd, 1, 2, seq(256, _ => odd)), 4, [5, 6, 7];
    var d: bytes := [x] + s;
    forall data: bytes, e: nat | 1 <= e <= |data| ensures !Boundary(c, data, e) {
      OddHashesNeverCut(c, odd, data, e);
    }
    hide WindowHash, Boundary;
    assert Cut(c, s, 0) == 2 && Cut(c, s, 2) == 3 && Cut(c, d, 0) == 2 && Cut(c, d, 2) == 4;
    assert Chunks(c, s, 3) == [] && Chunks(c, d, 4) == [];
    assert d == [4, 5, 6, 7] && d[2..4] == [6, 7] == s[1..];
    assert s[2..3] == s[2..] && Chunks(c, s, 2) == [s[2..3]];
    assert s[0..2] == s[..2] && Chunks(c, s, 0) == [s[0..2]] + Chunks(c, s, 2);
    assert d[2..4] == s[1..] && Chunks(c, d, 2) == [d[2..4]];
    assert d[0..2] == [x] + s[..1] && Chunks(c, d, 0) == [d[0..2]] + Chunks(c, d, 2);
  }
}
