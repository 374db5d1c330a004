/** The EncryptedObject ("ARQO") envelope: its constants, its magic, and its two HMAC checks. */
module Arqo {
  import opened Wrappers
  import opened Bytes

  const ARQO_MAGIC: bytes := [0x41, 0x52, 0x51, 0x4F]
  const HMAC_OFFSET: nat := 4
  const HMAC_BYTES: nat := 32
  const HMAC_BODY_OFFSET: nat := 36
  const HEADER_BYTES: nat := 116

  /** HMAC-SHA256 under a fixed key. */
  type Mac = bytes -> bytes

  predicate MagicAt(d: bytes, i: nat) {
    i + 4 <= |d| && d[i..i + 4] == ARQO_MAGIC
  }

  /** bytes.find(magic, start) */
  function Find(d: bytes, start: nat): (r: Option<nat>)
    ensures r.Some? ==> start <= r.value && MagicAt(d, r.value)
    ensures forall k: nat {:trigger MagicAt(d, k)} :: start <= k && (r.Some? ==> k < r.value) ==> !MagicAt(d, k)
    decreases |d| - start
  {
    if start + 4 > |d| then None
    else if MagicAt(d, start) then Some(start)
    else Find(d, start + 1)
  }

  /** verify_encrypted_object_hmac, its boolean */
  predicate VerifyObject(mac: Mac, data: bytes) {
    && |data| >= HEADER_BYTES && ARQO_MAGIC <= data
    && mac(data[HMAC_BODY_OFFSET..]) == data[HMAC_OFFSET..HMAC_OFFSET + HMAC_BYTES]
  }

  ghost predicate Ascending(ps: seq<nat>) {
    forall i, j :: 0 <= i < j < |ps| ==> ps[i] < ps[j]
  }

  /** `positions` lists every occurrence of the magic, in order. */
  ghost predicate CompletePositions(body: bytes, positions: seq<nat>) {
    Ascending(positions) && forall k: nat :: k in positions <==> MagicAt(body, k)
  }

  /** The occurrences from `start` on. */
  function PositionsFrom(body: bytes, start: nat): (ps: seq<nat>)
    ensures Ascending(ps) && forall k: nat :: k in ps <==> start <= k && MagicAt(body, k)
    decreases |body| - start
  {
    match Find(body, start)
    case None => []
    case Some(at) => [at] + PositionsFrom(body, at + 1)
  }

  function Positions(body: bytes): (ps: seq<nat>)
    ensures CompletePositions(body, ps)
  {
    PositionsFrom(body, 0)
  }

  /** find_arqo_positions: every occurrence, in order. */
  method FindPositions(body: bytes) returns (positions: seq<nat>)
    ensures CompletePositions(body, positions) && positions == Positions(body)
  {
    positions := [];
    var o := 0;
    while true
      invariant o <= |body| && Ascending(positions)
      invariant forall i :: 0 <= i < |positions| ==> positions[i] < o
      invariant forall k: nat :: k in positions <==> k < o && MagicAt(body, k)
      decreases |body| - o
    {
      var idx := Find(body, o);
      if idx.None? {
        break;
      }
      positions := positions + [idx.value];
      o := idx.value + 1;
    }
    SamePositions(body, positions, Positions(body));
  }

  /** What verify_multi_object_arqos decides for the object that spans [pos, end). */
  predicate InnerOk(mac: Mac, body: bytes, pos: nat, end: nat) {
    && pos + HMAC_BODY_OFFSET <= end <= |body|
    && mac(body[pos + HMAC_BODY_OFFSET..end]) == body[pos + HMAC_OFFSET..pos + HMAC_OFFSET + HMAC_BYTES]
  }

  function EndOf(body: bytes, positions: seq<nat>, i: nat): nat
    requires i < |positions|
  {
    if i + 1 < |positions| then positions[i + 1] else |body|
  }

  /** The positions among the first n whose object fails, in order. */
  function Failing(mac: Mac, body: bytes, positions: seq<nat>, n: nat): (fails: seq<nat>)
    requires n <= |positions|
    ensures |fails| <= n
    ensures fails == [] <==> forall i :: 0 <= i < n ==> InnerOk(mac, body, positions[i], EndOf(body, positions, i))
  {
    if n == 0 then []
    else
      var before := Failing(mac, body, positions, n - 1);
      if InnerOk(mac, body, positions[n - 1], EndOf(body, positions, n - 1)) then before
      else before + [positions[n - 1]]
  }

  /** An occurrence whose object fails. */
  ghost predicate FailsAt(mac: Mac, body: bytes, positions: seq<nat>, i: nat) {
    i < |positions| && !InnerOk(mac, body, positions[i], EndOf(body, positions, i))
  }

  /** The failing ones among the first n objects. */
  ghost function FailingPlaces(mac: Mac, body: bytes, positions: seq<nat>, n: nat): set<nat> {
    set i: nat | i < n && FailsAt(mac, body, positions, i)
  }

  /** The object at position p fails, and it is one of the first n. */
  ghost predicate FailsFrom(mac: Mac, body: bytes, positions: seq<nat>, n: nat, p: nat) {
    exists i: nat :: i < n && FailsAt(mac, body, positions, i) && positions[i] == p
  }

  /** The object at position p is the first that fails. */
  ghost predicate FirstFails(mac: Mac, body: bytes, positions: seq<nat>, n: nat, p: nat) {
    exists i: nat :: i < n && FailsAt(mac, body, positions, i) && positions[i] == p
      && forall k: nat :: k < i ==> !FailsAt(mac, body, positions, k)
  }

  /** Every failing object is listed, once, and nothing else; the first one listed is the first that fails. */
  lemma {:induction false} FailingMeans(mac: Mac, body: bytes, positions: seq<nat>, n: nat)
    requires n <= |positions|
    ensures var fails := Failing(mac, body, positions, n);
            && |fails| == |FailingPlaces(mac, body, positions, n)|
            && (forall p :: p in fails <==> FailsFrom(mac, body, positions, n, p))
            && (fails != [] ==> FirstFails(mac, body, positions, n, fails[0]))
    decreases n
  {
    hide InnerOk, FailingPlaces, FailsFrom, FirstFails;
    if n == 0 {
      NoneFails(mac, body, positions);
    } else {
      FailingMeans(mac, body, positions, n - 1);
      OneMoreFails(mac, body, positions, n);
    }
  }

  lemma NoneFails(mac: Mac, body: bytes, positions: seq<nat>)
    ensures FailingPlaces(mac, body, positions, 0) == {} && forall p :: !FailsFrom(mac, body, positions, 0, p)
  {}

  lemma OneMoreFails(mac: Mac, body: bytes, positions: seq<nat>, n: nat)
    requires 0 < n <= |positions|
    ensures var (last, p) := (FailsAt(mac, body, positions, n - 1), positions[n - 1]);
            && |FailingPlaces(mac, body, positions, n)|
               == |FailingPlaces(mac, body, positions, n - 1)| + (if last then 1 else 0)
            && (forall q :: FailsFrom(mac, body, positions, n, q)
                  <==> FailsFrom(mac, body, positions, n - 1, q) || (last && q == p))
            && (forall q :: FirstFails(mac, body, positions, n - 1, q) ==> FirstFails(mac, body, positions, n, q))
            && (last && FailingPlaces(mac, body, positions, n - 1) == {} ==> FirstFails(mac, body, positions, n, p))
  {
    hide FailsAt;
    var (here, before) := (FailingPlaces(mac, body, positions, n), FailingPlaces(mac, body, positions, n - 1));
    assert here == if FailsAt(mac, body, positions, n - 1) then before + {n - 1} else before;
    if before == {} {
      forall k: nat | k < n - 1 ensures !FailsAt(mac, body, positions, k) {
        assert k !in before;
      }
    }
    FromLast(mac, body, positions, n);
  }

  lemma FromLast(mac: Mac, body: bytes, positions: seq<nat>, n: nat)
    requires 0 < n <= |positions|
    ensures forall q :: FailsFrom(mac, body, positions, n, q)
              <==> FailsFrom(mac, body, positions, n - 1, q)
                   || (FailsAt(mac, body, positions, n - 1) && q == positions[n - 1])
  {
    hide FailsAt;
  }

  /** verify_multi_object_arqos */
  method VerifyMulti(mac: Mac, body: bytes) returns (nOk: nat, nFail: nat, failOffsets: seq<nat>)
    ensures nOk + nFail == |Positions(body)| && nFail == |failOffsets|
    ensures failOffsets == Failing(mac, body, Positions(body), |Positions(body)|)
  {
    hide Positions, CompletePositions, InnerOk, Failing;
    var found := FindPositions(body);
    WithinBody(body, found);
    nOk, nFail, failOffsets := 0, 0, [];
    NoneFailing(mac, body, found);
    var i := 0;
    while i < |found|
      invariant 0 <= i <= |found| && nOk + nFail == i && nFail == |failOffsets|
      invariant failOffsets == Failing(mac, body, found, i)
    {
      var end := if i + 1 < |found| then found[i + 1] else |body|;
      var ok := CheckInner(mac, body, found[i], end);
      FailingStep(mac, body, found, i);
      if ok {
        nOk := nOk + 1;
      } else {
        nFail, failOffsets := nFail + 1, failOffsets + [found[i]];
      }
      i := i + 1;
    }
  }

  /** The check of one object inside verify_multi_object_arqos. */
  method CheckInner(mac: Mac, body: bytes, pos: nat, end: nat) returns (ok: bool)
    requires pos <= |body| && end <= |body|
    ensures ok <==> InnerOk(mac, body, pos, end)
  {
    if pos + HMAC_BODY_OFFSET > end {
      return false;
    }
    var stored := body[pos + HMAC_OFFSET..pos + HMAC_OFFSET + HMAC_BYTES];
    return mac(body[pos + HMAC_BODY_OFFSET..end]) == stored;
  }

  lemma WithinBody(body: bytes, positions: seq<nat>)
    requires CompletePositions(body, positions)
    ensures forall i :: 0 <= i < |positions| ==> positions[i] <= |body|
  {
    forall i | 0 <= i < |positions| ensures positions[i] <= |body| {
      assert MagicAt(body, positions[i]);
    }
  }

  lemma NoneFailing(mac: Mac, body: bytes, positions: seq<nat>)
    ensures Failing(mac, body, positions, 0) == []
  {}

  lemma FailingStep(mac: Mac, body: bytes, positions: seq<nat>, i: nat)
    requires i < |positions|
    ensures Failing(mac, body, positions, i + 1)
         == Failing(mac, body, positions, i)
            + if InnerOk(mac, body, positions[i], EndOf(body, positions, i)) then [] else [positions[i]]
  {}

  /** Only one list can be the complete one. */
  lemma {:induction false} SamePositions(body: bytes, a: seq<nat>, b: seq<nat>)
    requires CompletePositions(body, a) && CompletePositions(body, b)
    ensures a == b
  {
    hide MagicAt;
    SameAscending(a, b);
  }

  ghost predicate SameMembers(a: seq<nat>, b: seq<nat>) {
    forall k: nat :: k in a <==> k in b
  }

  /** An ascending list is determined by its elements. */
  lemma {:induction false} SameAscending(a: seq<nat>, b: seq<nat>)
    requires Ascending(a) && Ascending(b) && SameMembers(a, b)
    ensures a == b
    decreases |a|
  {
    hide Ascending, SameMembers;
    EmptyTogether(a, b);
    if a != [] {
      SameLast(a, b);
      var x, a', b' := a[|a| - 1], a[..|a| - 1], b[..|b| - 1];
      SameAscending(a', b');
      assert a == a' + [x] && b == b' + [x];
    }
  }

  lemma EmptyTogether(a: seq<nat>, b: seq<nat>)
    requires SameMembers(a, b)
    ensures a == [] <==> b == []
  {
    HasMember(a);
    HasMember(b);
  }

  lemma HasMember(a: seq<nat>)
    ensures a == [] || exists k: nat :: k in a
  {
    if a != [] {
      assert a[0] in a;
    }
  }

  lemma SameLast(a: seq<nat>, b: seq<nat>)
    requires Ascending(a) && Ascending(b) && SameMembers(a, b) && a != [] && b != []
    ensures a[|a| - 1] == b[|b| - 1]
    ensures var (a', b') := (a[..|a| - 1], b[..|b| - 1]);
            Ascending(a') && Ascending(b') && SameMembers(a', b')
  {
    LastIsLargest(a);
    LastIsLargest(b);
    assert a[|a| - 1] in b && b[|b| - 1] in a;
  }

  lemma LastIsLargest(a: seq<nat>)
    requires Ascending(a) && a != []
    ensures var (x, a') := (a[|a| - 1], a[..|a| - 1]);
            Ascending(a') && (forall k: nat :: k in a ==> k <= x) && forall k: nat :: k in a' <==> k in a && k != x
  {
    var x, a' := a[|a| - 1], a[..|a| - 1];
    assert a == a' + [x];
  }
}
