/** A tree file that is cut short never parses, and what does parse does not depend on what follows. */
module TreeTear {
  import opened Wrappers
  import opened Bytes
  import opened TreeFormat
  import opened TreeRoundTrip

  /** What was read of d at p is read of any continuation, too, and none of it lies past the end of d. */
  ghost predicate Kept<T>(d: bytes, p: nat, r: Result<(T, nat)>, r': Result<(T, nat)>) {
    r.Ok? ==> r' == r && p <= r.value.1 <= |d|
  }

  lemma KeepsRaw(d: bytes, e: bytes, p: nat, n: nat)
    requires d <= e && p <= |d|
    ensures Kept(d, p, GetRaw(d, p, n), GetRaw(e, p, n))
  {
    assert p + n <= |d| ==> d[p..p + n] == e[p..p + n];
  }

  lemma KeepsUint(d: bytes, e: bytes, p: nat, n: nat)
    requires d <= e && p <= |d|
    ensures Kept(d, p, GetUint(d, p, n), GetUint(e, p, n))
  {
    hide GetRaw, Unsigned;
    KeepsRaw(d, e, p, n);
  }

  lemma KeepsRaws(d: bytes, e: bytes)
    requires d <= e
    ensures forall p: nat, n: nat :: p <= |d| ==> Kept(d, p, GetRaw(d, p, n), GetRaw(e, p, n))
  {
    hide GetRaw;
    forall p: nat, n: nat | p <= |d| ensures Kept(d, p, GetRaw(d, p, n), GetRaw(e, p, n)) {
      KeepsRaw(d, e, p, n);
    }
  }

  /** Of the fields of fixed width. */
  lemma KeepsUints(d: bytes, e: bytes)
    requires d <= e
    ensures forall p: nat, n: nat :: p <= |d| ==> Kept(d, p, GetUint(d, p, n), GetUint(e, p, n))
    ensures forall p: nat :: p <= |d| ==> Kept(d, p, GetBool(d, p), GetBool(e, p))
  {
    KeepsRaws(d, e);
    hide GetRaw, GetUint;
    forall p: nat, n: nat | p <= |d| ensures Kept(d, p, GetUint(d, p, n), GetUint(e, p, n)) {
      KeepsUint(d, e, p, n);
    }
  }

  lemma KeepsInts(d: bytes, e: bytes)
    requires d <= e
    ensures forall p: nat :: p <= |d| ==> Kept(d, p, GetInt32(d, p), GetInt32(e, p))
    ensures forall p: nat :: p <= |d| ==> Kept(d, p, GetInt64(d, p), GetInt64(e, p))
  {
    hide GetUint, ToSigned;
    forall p: nat | p <= |d|
      ensures Kept(d, p, GetInt32(d, p), GetInt32(e, p)) && Kept(d, p, GetInt64(d, p), GetInt64(e, p))
    {
      KeepsUint(d, e, p, 4);
      KeepsUint(d, e, p, 8);
      UintBound(d, p, 4);
      UintBound(d, p, 8);
    }
  }

  lemma KeepsString(d: bytes, e: bytes, p: nat)
    requires d <= e && p <= |d|
    ensures Kept(d, p, GetString(d, p), GetString(e, p))
  {
    KeepsRaws(d, e);
    KeepsUints(d, e);
    hide GetRaw, GetUint, GetBool;
  }

  lemma KeepsLoc(d: bytes, e: bytes, p: nat)
    requires d <= e && p <= |d|
    ensures Kept(d, p, GetBlobLoc(d, p), GetBlobLoc(e, p))
  {
    KeepsUints(d, e);
    hide GetRaw, GetUint, GetBool, GetString;
    forall p: nat | p <= |d| ensures Kept(d, p, GetString(d, p), GetString(e, p)) {
      KeepsString(d, e, p);
    }
  }

  lemma {:induction false} KeepsLocs(d: bytes, e: bytes, p: nat, count: nat)
    requires d <= e && p <= |d|
    ensures Kept(d, p, GetBlobLocs(d, p, count), GetBlobLocs(e, p, count))
  {
    hide GetBlobLoc;
    if count > 0 {
      KeepsLocs(d, e, p, count - 1);
      var first := GetBlobLocs(d, p, count - 1);
      if first.Ok? {
        KeepsLoc(d, e, first.value.1);
      }
    }
  }

  lemma KeepsOptionalLoc(d: bytes, e: bytes, p: nat)
    requires d <= e && p <= |d|
    ensures Kept(d, p, GetOptionalLoc(d, p), GetOptionalLoc(e, p))
  {
    KeepsUints(d, e);
    hide GetBool, GetBlobLoc;
    forall p: nat | p <= |d| ensures Kept(d, p, GetBlobLoc(d, p), GetBlobLoc(e, p)) {
      KeepsLoc(d, e, p);
    }
  }

  lemma KeepsNodeLocs(d: bytes, e: bytes, p: nat)
    requires d <= e && p <= |d|
    ensures Kept(d, p, GetNodeLocs(d, p), GetNodeLocs(e, p))
  {
    KeepsUints(d, e);
    hide GetUint, GetOptionalLoc, GetBlobLocs;
    forall p: nat | p <= |d| ensures Kept(d, p, GetOptionalLoc(d, p), GetOptionalLoc(e, p)) {
      KeepsOptionalLoc(d, e, p);
    }
    forall p: nat, n: nat | p <= |d| ensures Kept(d, p, GetBlobLocs(d, p, n), GetBlobLocs(e, p, n)) {
      KeepsLocs(d, e, p, n);
    }
  }

  lemma KeepsFixed(d: bytes, e: bytes, p: nat)
    requires d <= e && p <= |d|
    ensures Kept(d, p, GetFixed(d, p), GetFixed(e, p))
  {
    KeepsUints(d, e);
    hide GetRaw, GetUint, GetBool, GetString, GetTimes, GetMac;
    forall p: nat | p <= |d| ensures Kept(d, p, GetString(d, p), GetString(e, p)) {
      KeepsString(d, e, p);
    }
    var head := GetUint(d, p, 8);
    if head.Ok? && GetUint(d, head.value.1, 8).Ok? {
      var q := GetUint(d, head.value.1, 8).value.1;
      KeepsTimes(d, e, q);
    }
    forall p: nat | p <= |d| ensures Kept(d, p, GetMac(d, p), GetMac(e, p)) {
      KeepsMac(d, e, p);
    }
  }

  lemma KeepsTimes(d: bytes, e: bytes, p: nat)
    requires d <= e && p <= |d|
    ensures Kept(d, p, GetTimes(d, p), GetTimes(e, p))
  {
    KeepsInts(d, e);
    hide GetInt64;
  }

  lemma KeepsMac(d: bytes, e: bytes, p: nat)
    requires d <= e && p <= |d|
    ensures Kept(d, p, GetMac(d, p), GetMac(e, p))
  {
    KeepsUints(d, e);
    KeepsInts(d, e);
    hide GetInt32, GetUint;
  }

  lemma KeepsVersioned(d: bytes, e: bytes, p: nat, version: int)
    requires d <= e && p <= |d|
    ensures Kept(d, p, GetVersioned(d, p, version), GetVersioned(e, p, version))
  {
    KeepsRaws(d, e);
    KeepsUints(d, e);
    hide GetRaw, GetUint, GetBool;
  }

  lemma KeepsNode(d: bytes, e: bytes, p: nat, version: int)
    requires d <= e && p <= |d|
    ensures Kept(d, p, GetNode(d, p, version), GetNode(e, p, version))
  {
    hide GetNodeLocs, GetFixed, GetVersioned;
    KeepsNodeLocs(d, e, p);
    var locs := GetNodeLocs(d, p);
    if locs.Ok? {
      KeepsFixed(d, e, locs.value.1);
      var fixed := GetFixed(d, locs.value.1);
      if fixed.Ok? {
        KeepsVersioned(d, e, fixed.value.1, version);
      }
    }
  }

  lemma {:induction false} KeepsChildren(d: bytes, e: bytes, p: nat, count: nat, version: int)
    requires d <= e && p <= |d|
    ensures Kept(d, p, GetChildren(d, p, count, version), GetChildren(e, p, count, version))
  {
    hide GetString, GetNode;
    if count > 0 {
      KeepsChildren(d, e, p, count - 1, version);
      var first := GetChildren(d, p, count - 1, version);
      if first.Ok? {
        KeepsString(d, e, first.value.1);
        var name := GetString(d, first.value.1);
        if name.Ok? {
          KeepsNode(d, e, name.value.1, version);
        }
      }
    }
  }

  /** Where the tree at the start of d ends. */
  function TreeEnd(d: bytes): Result<(Tree, nat)> {
    var (version, p1) :- GetUint(d, 0, 4);
    var (count, p2) :- GetUint(d, p1, 8);
    var (cs, p3) :- GetChildren(d, p2, count, version);
    Ok((Tree(cs, version), p3))
  }

  lemma KeepsTree(d: bytes, e: bytes)
    requires d <= e
    ensures Kept(d, 0, TreeEnd(d), TreeEnd(e))
    ensures ParseTree(d).Ok? <==> TreeEnd(d).Ok?
    ensures ParseTree(d).Ok? ==> ParseTree(e) == ParseTree(d)
  {
    KeepsUints(d, e);
    hide GetUint, GetChildren;
    forall p: nat, n: nat, v: int | p <= |d| ensures Kept(d, p, GetChildren(d, p, n, v), GetChildren(e, p, n, v)) {
      KeepsChildren(d, e, p, n, v);
    }
  }

  /** A tree file cut short anywhere does not parse. */
  lemma TornTreeFails(t: Tree, version: nat, k: nat)
    requires Sized(t) && version < TWO_TO_32 && k < |WriteTree(t, version)|
    ensures ParseTree(WriteTree(t, version)[..k]).Err?
  {
    var w := WriteTree(t, version);
    WrittenEnd(t, version);
    KeepsTree(w[..k], w);
  }

  lemma WrittenEnd(t: Tree, version: nat)
    requires Sized(t) && version < TWO_TO_32
    ensures TreeEnd(WriteTree(t, version)).Ok? && TreeEnd(WriteTree(t, version)).value.1 == |WriteTree(t, version)|
  {
    hide At, WriteUint32, WriteUint64, WriteChildren, GetUint, GetChildren, StoredChildren;
    var w := WriteTree(t, version);
    AtPrefix(w, []);
    assert w + [] == w;
    Split3(w, 0, WriteUint32(version), WriteUint64(|t.children|), WriteChildren(t.children, version));
    ReadUint32(w, 0, version);
    ReadUint64(w, 4, |t.children|);
    ReadChildren(w, 12, t.children, version);
  }
}
