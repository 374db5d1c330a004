/** Sweeps of audit-drip: many fires, each resuming after the cursor the last one left. */
module DripSweep {
  import opened Wrappers
  import opened AuditCore
  import opened Layouts
  import opened Ordering
  import opened DripWalk

  /** The first index from i on whose file sorts after x. */
  function FirstAfter(w: seq<Item>, x: Item, i: nat): (k: nat)
    requires i <= |w|
    ensures i <= k <= |w| && (k < |w| ==> ItemLess(x, w[k])) && forall n :: i <= n < k ==> !ItemLess(x, w[n])
    decreases |w| - i
  {
    if i == |w| || ItemLess(x, w[i]) then i else FirstAfter(w, x, i + 1)
  }

  function IndexAfter(w: seq<Item>, cursor: Option<Item>): (k: nat)
    ensures k <= |w|
  {
    if cursor.None? then 0 else FirstAfter(w, cursor.value, 0)
  }

  /** _index_after_cursor */
  method IndexAfterCursor(w: seq<Item>, cursor: Option<Item>) returns (k: nat)
    ensures k == IndexAfter(w, cursor)
  {
    if cursor.None? {
      return 0;
    }
    for i := 0 to |w|
      invariant FirstAfter(w, cursor.value, 0) == FirstAfter(w, cursor.value, i)
    {
      if ItemLess(cursor.value, w[i]) {
        return i;
      }
    }
    return |w|;
  }

  /** Resuming from any file of the walk goes on with its successor exactly when the walk is strictly increasing. */
  lemma ResumeIff(w: seq<Item>)
    ensures (forall i :: 0 <= i < |w| ==> IndexAfter(w, Some(w[i])) == i + 1) <==> Increasing(w)
  {
    hide ItemLess;
    if Increasing(w) {
      forall i | 0 <= i < |w| ensures IndexAfter(w, Some(w[i])) == i + 1 {
        ResumesNext(w, i);
      }
    }
    if forall i :: 0 <= i < |w| ==> IndexAfter(w, Some(w[i])) == i + 1 {
      forall i, j | 0 <= i < j < |w| ensures ItemLess(w[i], w[j]) {
        Chain(w, i, j);
      }
    }
  }

  lemma ResumesNext(w: seq<Item>, i: nat)
    requires Increasing(w) && i < |w|
    ensures IndexAfter(w, Some(w[i])) == i + 1
  {
    hide ItemLess;
    var k := FirstAfter(w, w[i], 0);
    forall n | 0 <= n <= i ensures !ItemLess(w[i], w[n]) {
      ItemsOrdered(w[n], w[i], w[n]);
    }
    assert i + 1 < |w| ==> ItemLess(w[i], w[i + 1]);
  }

  lemma {:induction false} Chain(w: seq<Item>, i: nat, j: nat)
    requires i < j < |w| && forall n :: 0 <= n < |w| ==> IndexAfter(w, Some(w[n])) == n + 1
    ensures ItemLess(w[i], w[j])
    decreases j - i
  {
    hide ItemLess;
    assert IndexAfter(w, Some(w[j - 1])) == j;
    if i < j - 1 {
      Chain(w, i, j - 1);
      ItemsOrdered(w[i], w[j - 1], w[j]);
    }
  }

  /* ---- A sweep: the files its fires process, in order ---- */

  /** One fire: the walk it found, and how many files it processed before its deadline. */
  datatype Fire = Fire(walk: seq<Item>, count: nat)

  function LastOf(done: seq<Item>): Option<Item> {
    if done == [] then None else Some(done[|done| - 1])
  }

  /** The files processed by a sweep's fires; the cursor is the last of them. */
  function Swept(fires: seq<Fire>): seq<Item> {
    if fires == [] then []
    else
      var (before, f) := (Swept(fires[..|fires| - 1]), fires[|fires| - 1]);
      before + Slice(f, IndexAfter(f.walk, LastOf(before)))
  }

  function Slice(f: Fire, start: nat): seq<Item>
    requires start <= |f.walk|
  {
    if start + f.count <= |f.walk| then f.walk[start..start + f.count] else f.walk[start..]
  }

  /** The last fire reached the end of its walk. */
  predicate Complete(fires: seq<Fire>) {
    fires != [] &&
    var (before, f) := (Swept(fires[..|fires| - 1]), fires[|fires| - 1]);
    IndexAfter(f.walk, LastOf(before)) + f.count >= |f.walk|
  }

  ghost predicate AllIncreasing(fires: seq<Fire>) {
    forall f :: f in fires ==> Increasing(f.walk)
  }

  ghost predicate Throughout(fires: seq<Fire>, x: Item) {
    forall f :: f in fires ==> x in f.walk
  }

  /** Files at or below the cursor that have been there from the first fire on have been processed. */
  ghost predicate CoversBelow(fires: seq<Fire>, done: seq<Item>) {
    forall x :: Throughout(fires, x) && done != [] && !ItemLess(done[|done| - 1], x) ==> x in done
  }

  /** Main result: with increasing walks, no file is processed twice, and none present throughout is passed over. */
  lemma {:induction false} SweepsOnce(fires: seq<Fire>)
    requires fires != [] && AllIncreasing(fires)
    ensures Increasing(Swept(fires)) && CoversBelow(fires, Swept(fires))
    ensures Complete(fires) ==> forall x :: Throughout(fires, x) ==> x in Swept(fires)
    decreases |fires|
  {
    hide ItemLess, Increasing, CoversBelow, Slice, IndexAfter, LastOf, Throughout;
    var (rest, f) := (fires[..|fires| - 1], fires[|fires| - 1]);
    assert f in fires;
    var before := Swept(rest);
    if rest == [] {
      EmptyIncreasing();
      FirstFire(fires, f);
    } else {
      SweepsOnce(rest);
      FireExtends(rest, f, before);
      assert fires == rest + [f];
    }
  }

  lemma IncreasingAt(w: seq<Item>, i: nat, j: nat)
    ensures Increasing(w) && i < j < |w| ==> ItemLess(w[i], w[j])
  {}

  lemma FirstFire(fires: seq<Fire>, f: Fire)
    requires fires == [f] && Increasing(f.walk)
    ensures Increasing(Slice(f, 0)) && IndexAfter(f.walk, LastOf([])) == 0 && [] + Slice(f, 0) == Slice(f, 0)
    ensures CoversBelow(fires, Slice(f, 0))
    ensures f.count >= |f.walk| ==> forall x :: Throughout(fires, x) ==> x in Slice(f, 0)
  {
    hide ItemLess;
    var s := Slice(f, 0);
    assert s == f.walk[..|s|];
    forall x | Throughout(fires, x) && s != [] && !ItemLess(s[|s| - 1], x) ensures x in s {
      assert f in fires;
      var k :| 0 <= k < |f.walk| && f.walk[k] == x;
      IncreasingAt(f.walk, |s| - 1, k);
    }
    forall x | Throughout(fires, x) ensures x in f.walk {
      assert f in fires;
    }
  }

  lemma FireExtends(rest: seq<Fire>, f: Fire, before: seq<Item>)
    requires Increasing(before) && CoversBelow(rest, before) && Increasing(f.walk) && rest != []
    ensures var start := IndexAfter(f.walk, LastOf(before));
            var after := before + Slice(f, start);
            && Increasing(after) && CoversBelow(rest + [f], after)
            && (start + f.count >= |f.walk| ==> forall x :: Throughout(rest + [f], x) ==> x in after)
  {
    hide ItemLess, Increasing, IndexAfter, Slice, LastOf;
    var start := IndexAfter(f.walk, LastOf(before));
    var s := Slice(f, start);
    var after := before + s;
    SliceIncreasing(f, start);
    BelowSlice(f, before, start);
    IncreasingJoin(before, s);
    forall x | Throughout(rest + [f], x) ensures Throughout(rest, x) && x in f.walk {
      assert f in rest + [f];
      assert forall g :: g in rest ==> g in rest + [f];
    }
    forall x | Throughout(rest + [f], x) && after != [] && (!ItemLess(after[|after| - 1], x) || start + |s| == |f.walk|)
      ensures x in after
    {
      Placed(rest, f, before, start, x);
    }
    if start + f.count >= |f.walk| {
      WholeSlice(f, start, before);
    }
  }

  lemma WholeSlice(f: Fire, start: nat, before: seq<Item>)
    requires start <= |f.walk| <= start + f.count && start == IndexAfter(f.walk, LastOf(before))
    ensures start + |Slice(f, start)| == |f.walk|
    ensures before + Slice(f, start) == [] ==> f.walk == []
  {}

  lemma SliceIncreasing(f: Fire, start: nat)
    requires Increasing(f.walk) && start <= |f.walk|
    ensures Increasing(Slice(f, start))
  {}

  lemma BelowSlice(f: Fire, before: seq<Item>, start: nat)
    requires Increasing(before) && Increasing(f.walk) && start == IndexAfter(f.walk, LastOf(before))
    ensures forall x, y :: x in before && y in Slice(f, start) ==> ItemLess(x, y)
  {
    hide ItemLess;
    if before != [] {
      var c := before[|before| - 1];
      forall x, y | x in before && y in Slice(f, start) ensures ItemLess(x, y) {
        var k :| start <= k < |f.walk| && f.walk[k] == y;
        assert k > start ==> ItemLess(f.walk[start], f.walk[k]);
        ItemsOrdered(c, f.walk[start], y);
        var i :| 0 <= i < |before| && before[i] == x;
        assert i < |before| - 1 ==> ItemLess(x, c);
        ItemsOrdered(x, c, y);
      }
    }
  }

  /** A file of the walk is below the cursor, in the slice, or beyond it. */
  lemma Placed(rest: seq<Fire>, f: Fire, before: seq<Item>, start: nat, x: Item)
    requires CoversBelow(rest, before) && Throughout(rest, x) && Increasing(f.walk) && x in f.walk
    requires start == IndexAfter(f.walk, LastOf(before))
    requires var after := before + Slice(f, start);
             after != [] && (!ItemLess(after[|after| - 1], x) || start + |Slice(f, start)| == |f.walk|)
    ensures x in before + Slice(f, start)
  {
    hide ItemLess;
    var s := Slice(f, start);
    var k :| 0 <= k < |f.walk| && f.walk[k] == x;
    BeyondSlice(f, before, start, k);
    if k < start {
      assert before != [] && !ItemLess(before[|before| - 1], x);
    } else if k < start + |s| {
      assert s[k - start] == x;
    }
  }

  lemma BeyondSlice(f: Fire, before: seq<Item>, start: nat, k: nat)
    requires Increasing(f.walk) && start == IndexAfter(f.walk, LastOf(before)) && k < |f.walk|
    ensures var after := before + Slice(f, start);
            k >= start + |Slice(f, start)| && after != [] ==> ItemLess(after[|after| - 1], f.walk[k])
  {
    hide ItemLess;
    var s := Slice(f, start);
    if k >= start + |s| {
      if s != [] {
        assert s[|s| - 1] == f.walk[start + |s| - 1];
      } else if before != [] {
        assert k > start ==> ItemLess(f.walk[start], f.walk[k]);
        ItemsOrdered(before[|before| - 1], f.walk[start], f.walk[k]);
      }
    }
  }
}
