/** Option and Result, used for Python's None and for raised ValueErrors. */
module Wrappers {
  datatype Option<+T> = None | Some(value: T)

  /** The outcome of an operation that may raise; the exception's message is not modelled. */
  datatype Result<+T> = Ok(value: T) | Err {
    predicate IsFailure() { Err? }

    function PropagateFailure<U>(): Result<U>
      requires Err?
    {
      Err
    }

    function Extract(): T
      requires Ok?
    {
      value
    }
  }
}

/** Byte strings, network-byte-order integers, and "this text sits at that offset". */
module Bytes {
  type byte = x: int | 0 <= x < 256
  type bytes = seq<byte>

  const TWO_TO_31: nat := 0x8000_0000
  const TWO_TO_32: nat := 0x1_0000_0000
  const TWO_TO_63: nat := 0x8000_0000_0000_0000
  const TWO_TO_64: nat := 0x1_0000_0000_0000_0000

  type uint32 = x: int | 0 <= x < 0x1_0000_0000
  type uint64 = x: int | 0 <= x < 0x1_0000_0000_0000_0000
  type int32 = x: int | -0x8000_0000 <= x < 0x8000_0000
  type int64 = x: int | -0x8000_0000_0000_0000 <= x < 0x8000_0000_0000_0000

  function Pow256(k: nat): (p: nat)
    ensures p > 0
  {
    if k == 0 then 1 else 256 * Pow256(k - 1)
  }

  function BigEndian(n: nat, width: nat): (b: bytes)
    ensures |b| == width
  {
    if width == 0 then [] else BigEndian(n / 256, width - 1) + [n % 256]
  }

  function Unsigned(b: bytes): nat {
    if b == [] then 0 else 256 * Unsigned(b[..|b| - 1]) + b[|b| - 1]
  }

  lemma Pow256Values()
    ensures Pow256(4) == TWO_TO_32 && Pow256(8) == TWO_TO_64
  {
    assert Pow256(2) == 0x1_0000;
    assert Pow256(4) == 0x1_0000_0000;
    assert Pow256(6) == 0x1_0000_0000_0000;
  }

  lemma ModStep(n: nat, m: nat)
    requires m > 0
    ensures 256 * m > 0 && n % (256 * m) == 256 * ((n / 256) % m) + n % 256
  {
    var q, r := (n / 256) / m, (n / 256) % m;
    assert n / 256 == q * m + r;
    assert n == q * (256 * m) + (256 * r + n % 256) by {
      assert n == 256 * (n / 256) + n % 256;
      assert 256 * (q * m) == q * (256 * m);
    }
    ModUnique(n, 256 * m, q, 256 * r + n % 256);
  }

  lemma ModUnique(n: nat, m: nat, q: int, r: nat)
    requires m > 0 && n == q * m + r && r < m
    ensures n % m == r
  {
    var q', r' := n / m, n % m;
    assert n == q' * m + r';
    assert (q - q') * m == r' - r;
    MultipleOfModulus(q - q', m);
  }

  lemma MultipleOfModulus(k: int, m: nat)
    ensures k >= 1 ==> k * m >= m
    ensures k <= -1 ==> k * m + m <= 0
  {}

  /** Reading back a packed integer gives it modulo the field's width. */
  lemma {:induction false} UnsignedOfBigEndian(n: nat, width: nat)
    ensures Unsigned(BigEndian(n, width)) == n % Pow256(width)
  {
    if width > 0 {
      UnsignedOfBigEndian(n / 256, width - 1);
      var b := BigEndian(n, width);
      assert b[..|b| - 1] == BigEndian(n / 256, width - 1);
      ModStep(n, Pow256(width - 1));
    }
  }

  lemma {:induction false} UnsignedBound(b: bytes)
    ensures Unsigned(b) < Pow256(|b|)
  {
    if b != [] {
      UnsignedBound(b[..|b| - 1]);
    }
  }

  lemma {:induction false} BigEndianOfUnsigned(b: bytes)
    ensures BigEndian(Unsigned(b), |b|) == b
  {
    if b != [] {
      BigEndianOfUnsigned(b[..|b| - 1]);
      assert b == b[..|b| - 1] + [b[|b| - 1]];
    }
  }

  /** The text w occupies d from position p on. */
  ghost predicate At(d: bytes, p: nat, w: bytes) {
    p + |w| <= |d| && d[p..p + |w|] == w
  }

  lemma Split2(d: bytes, p: nat, a: bytes, b: bytes)
    requires At(d, p, a + b)
    ensures At(d, p, a) && At(d, p + |a|, b)
  {
    var w := d[p..p + |a + b|];
    assert w[..|a|] == a && w[|a|..] == b;
    assert d[p..p + |a|] == w[..|a|];
    assert d[p + |a|..p + |a| + |b|] == w[|a|..];
  }

  lemma Split3(d: bytes, p: nat, a: bytes, b: bytes, c: bytes)
    requires At(d, p, a + b + c)
    ensures At(d, p, a) && At(d, p + |a|, b) && At(d, p + |a| + |b|, c)
  {
    Split2(d, p, a + b, c);
    Split2(d, p, a, b);
  }

  lemma Split4(d: bytes, p: nat, a: bytes, b: bytes, c: bytes, e: bytes)
    requires At(d, p, a + b + c + e)
    ensures At(d, p, a) && At(d, p + |a|, b) && At(d, p + |a| + |b|, c) && At(d, p + |a| + |b| + |c|, e)
  {
    Split2(d, p, a + b + c, e);
    Split3(d, p, a, b, c);
  }

  lemma Split5(d: bytes, p: nat, a: bytes, b: bytes, c: bytes, e: bytes, f: bytes)
    requires At(d, p, a + b + c + e + f)
    ensures At(d, p, a) && At(d, p + |a|, b) && At(d, p + |a| + |b|, c) && At(d, p + |a| + |b| + |c|, e)
    ensures At(d, p + |a| + |b| + |c| + |e|, f)
  {
    Split2(d, p, a + b + c + e, f);
    Split4(d, p, a, b, c, e);
  }

  lemma AtPrefix(w: bytes, rest: bytes)
    ensures At(w + rest, 0, w)
  {
    assert (w + rest)[0..|w|] == w;
  }

  /** b"".join(pieces) */
  function Join(pieces: seq<bytes>): bytes {
    if pieces == [] then [] else pieces[0] + Join(pieces[1..])
  }

  lemma {:induction false} JoinAppend(pieces: seq<bytes>, last: bytes)
    ensures Join(pieces + [last]) == Join(pieces) + last
  {
    if pieces == [] {
      assert [last][1..] == [];
    } else {
      JoinAppend(pieces[1..], last);
      assert (pieces + [last])[1..] == pieces[1..] + [last];
      assert pieces[0] + Join(pieces[1..]) + last == pieces[0] + (Join(pieces[1..]) + last);
    }
  }
}
