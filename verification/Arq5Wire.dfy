/** The primitives of Arq 5 binary records, and rows of them: a schema lists a record's fields in wire order. */
module Arq5Wire {
  import opened Wrappers
  import opened Bytes
  import opened TreeFormat
  import opened TreeRoundTrip
  import opened TreeReader

  datatype Prim = Bool | Int32 | Uint32 | Int64 | Uint64 | Text | Date

  /** A date is its milliseconds since the epoch. */
  datatype Value = VBool(b: bool) | VInt(n: int) | VText(text: Option<bytes>) | VDate(millis: Option<int>)

  predicate Fits(v: Value, k: Prim) {
    match k
    case Bool => v.VBool?
    case Int32 => v.VInt? && -0x8000_0000 <= v.n < 0x8000_0000
    case Uint32 => v.VInt? && 0 <= v.n < TWO_TO_32
    case Int64 => v.VInt? && -0x8000_0000_0000_0000 <= v.n < 0x8000_0000_0000_0000
    case Uint64 => v.VInt? && 0 <= v.n < TWO_TO_64
    case Text => v.VText? && (v.text.Some? ==> |v.text.value| < TWO_TO_64)
    case Date => v.VDate? && (v.millis.Some? ==> -0x8000_0000_0000_0000 <= v.millis.value < 0x8000_0000_0000_0000)
  }

  function WritePrim(v: Value, k: Prim): bytes
    requires Fits(v, k)
  {
    match k
    case Bool => WriteBool(v.b)
    case Int32 => WriteInt32(v.n)
    case Uint32 => WriteUint32(v.n)
    case Int64 => WriteInt64(v.n)
    case Uint64 => WriteUint64(v.n)
    case Text => WriteString(v.text)
    case Date => if v.millis.None? then [0] else [1] + WriteInt64(v.millis.value)
  }

  /** A flag byte, which must be 0 or 1. */
  function GetFlag(d: bytes, p: nat): Result<(bool, nat)> {
    var (b, q) :- GetRaw(d, p, 1);
    if b[0] > 1 then Err else Ok((b[0] == 1, q))
  }

  function GetDate(d: bytes, p: nat): Result<(Option<int>, nat)> {
    var (present, q) :- GetFlag(d, p);
    if !present then Ok((None, q))
    else
      var (n, q2) :- GetInt64(d, q);
      Ok((Some(n), q2))
  }

  function GetPrim(d: bytes, p: nat, k: Prim): Result<(Value, nat)> {
    match k
    case Bool =>
      var (b, q) :- GetFlag(d, p);
      Ok((VBool(b), q))
    case Int32 =>
      var (n, q) :- GetInt32(d, p);
      Ok((VInt(n), q))
    case Uint32 =>
      var (n, q) :- GetUint(d, p, 4);
      Ok((VInt(n), q))
    case Int64 =>
      var (n, q) :- GetInt64(d, p);
      Ok((VInt(n), q))
    case Uint64 =>
      var (n, q) :- GetUint(d, p, 8);
      Ok((VInt(n), q))
    case Text =>
      var (s, q) :- GetString(d, p);
      Ok((VText(s), q))
    case Date =>
      var (m, q) :- GetDate(d, p);
      Ok((VDate(m), q))
  }

  lemma ReadFlag(d: bytes, p: nat, b: bool)
    requires At(d, p, WriteBool(b))
    ensures GetFlag(d, p) == Ok((b, p + 1))
  {
    assert d[p..p + 1] == WriteBool(b);
  }

  lemma ReadPrim(d: bytes, p: nat, v: Value, k: Prim)
    requires Fits(v, k) && At(d, p, WritePrim(v, k))
    ensures GetPrim(d, p, k) == Ok((v, p + |WritePrim(v, k)|))
  {
    hide At, WriteBool, WriteInt32, WriteUint32, WriteInt64, WriteUint64, WriteString, GetFlag, GetUint, GetInt32,
         GetInt64, GetString;
    match k
    case Bool => ReadFlag(d, p, v.b);
    case Int32 => ReadInt32(d, p, v.n);
    case Uint32 => ReadUint32(d, p, v.n); SmallMod(v.n, TWO_TO_32);
    case Int64 => ReadInt64(d, p, v.n);
    case Uint64 => ReadUint64(d, p, v.n); SmallMod(v.n, TWO_TO_64);
    case Text => ReadString(d, p, v.text);
    case Date => ReadDate(d, p, v.millis);
  }

  lemma SmallMod(n: nat, m: nat)
    requires n < m
    ensures n % m == n
  {}

  lemma ReadDate(d: bytes, p: nat, millis: Option<int>)
    requires Fits(VDate(millis), Date) && At(d, p, WritePrim(VDate(millis), Date))
    ensures GetDate(d, p) == Ok((millis, p + |WritePrim(VDate(millis), Date)|))
  {
    hide WriteInt64, GetInt64, GetFlag;
    assert WriteBool(true) == [1] && WriteBool(false) == [0];
    if millis.Some? {
      Split2(d, p, [1], WriteInt64(millis.value));
      ReadFlag(d, p, true);
      ReadInt64(d, p + 1, millis.value);
    } else {
      ReadFlag(d, p, false);
    }
  }

  /* ---- Rows ---- */

  type Schema = seq<Prim>

  predicate Conforms(vs: seq<Value>, ks: Schema) {
    |vs| == |ks| && forall i :: 0 <= i < |vs| ==> Fits(vs[i], ks[i])
  }

  function WriteRow(vs: seq<Value>, ks: Schema): bytes
    requires Conforms(vs, ks)
  {
    if vs == [] then []
    else
      var n := |vs| - 1;
      WriteRow(vs[..n], ks[..n]) + WritePrim(vs[n], ks[n])
  }

  function GetRow(d: bytes, p: nat, ks: Schema): Result<(seq<Value>, nat)> {
    if ks == [] then Ok(([], p))
    else
      var (vs, q) :- GetRow(d, p, ks[..|ks| - 1]);
      var (v, q2) :- GetPrim(d, q, ks[|ks| - 1]);
      Ok((vs + [v], q2))
  }

  /** Whatever the schema and whatever follows: reading a written row gives its values and stops at its end. */
  lemma {:induction false} ReadRow(d: bytes, p: nat, vs: seq<Value>, ks: Schema)
    requires Conforms(vs, ks) && At(d, p, WriteRow(vs, ks))
    ensures GetRow(d, p, ks) == Ok((vs, p + |WriteRow(vs, ks)|))
    decreases |vs|
  {
    hide At, Fits, WritePrim, GetPrim;
    if vs != [] {
      var n := |vs| - 1;
      WriteRowStep(vs, ks);
      hide WriteRow;
      var (init, last) := (WriteRow(vs[..n], ks[..n]), WritePrim(vs[n], ks[n]));
      Split2(d, p, init, last);
      ReadRow(d, p, vs[..n], ks[..n]);
      ReadPrim(d, p + |init|, vs[n], ks[n]);
      GetRowStep(d, p, ks);
      hide GetRow;
      assert vs == vs[..n] + [vs[n]];
    }
  }

  lemma WriteRowStep(vs: seq<Value>, ks: Schema)
    requires Conforms(vs, ks) && vs != []
    ensures var n := |vs| - 1;
            Conforms(vs[..n], ks[..n]) && WriteRow(vs, ks) == WriteRow(vs[..n], ks[..n]) + WritePrim(vs[n], ks[n])
  {
    hide Fits, WritePrim;
  }

  lemma GetRowStep(d: bytes, p: nat, ks: Schema)
    requires ks != []
    ensures var (n, init) := (|ks| - 1, GetRow(d, p, ks[..|ks| - 1]));
            GetRow(d, p, ks) == if init.Err? then Err
                                else var last := GetPrim(d, init.value.1, ks[n]);
                                     if last.Err? then Err else Ok((init.value.0 + [last.value.0], last.value.1))
  {
    hide GetPrim;
  }

  lemma {:induction false} RowShape(d: bytes, p: nat, ks: Schema)
    ensures var r := GetRow(d, p, ks); r.Ok? ==> |r.value.0| == |ks| && forall i ::
        0 <= i < |ks| ==> Kind(r.value.0[i], ks[i])
    decreases |ks|
  {
    hide GetFlag, GetUint, GetInt32, GetInt64, GetString, GetDate;
    if ks != [] {
      RowShape(d, p, ks[..|ks| - 1]);
    }
  }

  /** The value is of the kind its field asks for. */
  predicate Kind(v: Value, k: Prim) {
    match k
    case Bool => v.VBool?
    case Text => v.VText?
    case Date => v.VDate?
    case _ => v.VInt?
  }

  /** BinaryStream */
  class BinaryStream {
    const data: bytes
    var pos: nat

    constructor (data: bytes)
      ensures this.data == data && pos == 0
    {
      this.data, this.pos := data, 0;
    }

    method ReadRaw(n: nat) returns (r: Result<bytes>)
      modifies this
      ensures Agrees(GetRaw(data, old(pos), n), r, pos)
    {
      if pos + n > |data| {
        return Err;
      }
      r := Ok(data[pos..pos + n]);
      pos := pos + n;
    }

    /** read_bool; the flag bytes of strings and dates are read alike. */
    method ReadBool() returns (r: Result<bool>)
      modifies this
      ensures Agrees(GetFlag(data, old(pos)), r, pos)
    {
      var b :- ReadRaw(1);
      if b[0] > 1 {
        return Err;
      }
      return Ok(b[0] == 1);
    }

    method ReadUint(width: nat) returns (r: Result<nat>)
      modifies this
      ensures Agrees(GetUint(data, old(pos), width), r, pos)
    {
      var b :- ReadRaw(width);
      return Ok(Unsigned(b));
    }

    method ReadInt32() returns (r: Result<int32>)
      modifies this
      ensures Agrees(GetInt32(data, old(pos)), r, pos)
    {
      UintBound(data, pos, 4);
      var u :- ReadUint(4);
      return Ok(ToSigned(u, TWO_TO_31));
    }

    method ReadInt64() returns (r: Result<int64>)
      modifies this
      ensures Agrees(GetInt64(data, old(pos)), r, pos)
    {
      UintBound(data, pos, 8);
      var u :- ReadUint(8);
      return Ok(ToSigned(u, TWO_TO_63));
    }

    method ReadString() returns (r: Result<Option<bytes>>)
      modifies this
      ensures Agrees(GetString(data, old(pos)), r, pos)
    {
      var flag :- ReadRaw(1);
      if flag[0] == 0 {
        return Ok(None);
      }
      if flag[0] != 1 {
        return Err;
      }
      var n :- ReadUint(8);
      var s :- ReadRaw(n);
      return Ok(Some(s));
    }

    method ReadDate() returns (r: Result<Option<int>>)
      modifies this
      ensures Agrees(GetDate(data, old(pos)), r, pos)
    {
      hide GetInt64, GetFlag;
      var present :- ReadBool();
      if !present {
        return Ok(None);
      }
      var n :- ReadInt64();
      return Ok(Some(n));
    }

    method ReadValue(k: Prim) returns (r: Result<Value>)
      modifies this
      ensures Agrees(GetPrim(data, old(pos), k), r, pos)
    {
      hide GetFlag, GetUint, GetInt32, GetInt64, GetString, GetDate;
      match k
      case Bool =>
        var b :- ReadBool();
        return Ok(VBool(b));
      case Int32 =>
        var n :- ReadInt32();
        return Ok(VInt(n));
      case Uint32 =>
        var n :- ReadUint(4);
        return Ok(VInt(n));
      case Int64 =>
        var n :- ReadInt64();
        return Ok(VInt(n));
      case Uint64 =>
        var n :- ReadUint(8);
        return Ok(VInt(n));
      case Text =>
        var s :- ReadString();
        return Ok(VText(s));
      case Date =>
        var m :- ReadDate();
        return Ok(VDate(m));
    }

    /** The fields of a record, one read after another. */
    method ReadFields(ks: Schema) returns (r: Result<seq<Value>>)
      modifies this
      ensures Agrees(GetRow(data, old(pos), ks), r, pos)
    {
      hide GetPrim;
      var vs: seq<Value> := [];
      var k := 0;
      while k < |ks|
        invariant 0 <= k <= |ks| && GetRow(data, old(pos), ks[..k]) == Ok((vs, pos))
      {
        RowStep(data, old(pos), ks, k);
        var v := ReadValue(ks[k]);
        if v.Err? {
          RowFails(data, old(pos), ks, k + 1);
          return Err;
        }
        vs, k := vs + [v.value], k + 1;
      }
      assert ks[..|ks|] == ks;
      return Ok(vs);
    }
  }

  lemma RowStep(d: bytes, p: nat, ks: Schema, k: nat)
    requires k < |ks|
    ensures ks[..k + 1][..k] == ks[..k] && ks[..k + 1][k] == ks[k]
  {}

  lemma {:induction false} RowFails(d: bytes, p: nat, ks: Schema, k: nat)
    requires k <= |ks| && GetRow(d, p, ks[..k]).Err?
    ensures GetRow(d, p, ks).Err?
    decreases |ks| - k
  {
    hide GetPrim;
    if k < |ks| {
      assert ks[..k + 1][..k] == ks[..k];
      RowFails(d, p, ks, k + 1);
    } else {
      assert ks[..k] == ks;
    }
  }
}
