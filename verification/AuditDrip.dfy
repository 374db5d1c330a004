/** run_audit_drip: one fire of the resumable audit, and what the persistent state means across fires. */
module AuditDrip {
  import opened Wrappers
  import opened Bytes
  import opened Arqo
  import opened AuditCore
  import opened Layouts
  import opened Ordering
  import opened DripWalk
  import opened DripSweep

  datatype Aborted = Paused | Deadline

  /** What a fire finds on the destination. */
  datatype World = World(layouts: seq<Layout>, backend: Item -> Answer, cap: Option<nat>)

  /** _decrypt_keysets_per_cu: the keysets that open, by computer. */
  function Keysets(layouts: seq<Layout>): map<string, Mac> {
    if layouts == [] then map[]
    else
      var (before, l) := (Keysets(layouts[..|layouts| - 1]), layouts[|layouts| - 1]);
      if l.mac.Some? then before[l.computer := l.mac.value] else before
  }

  /** Each backup set whose keyset opens has its own key, and no other has any. */
  lemma {:induction false} KeysetsMeans(layouts: seq<Layout>)
    requires Listed(layouts)
    ensures forall l :: l in layouts ==>
        (l.computer in Keysets(layouts) <==> l.mac.Some?)
            && (l.mac.Some? ==> Keysets(layouts)[l.computer] == l.mac.value)
    ensures forall c :: c in Keysets(layouts) ==> exists l :: l in layouts && l.computer == c
    decreases |layouts|
  {
    if layouts != [] {
      var (rest, last) := (layouts[..|layouts| - 1], layouts[|layouts| - 1]);
      assert layouts == rest + [last];
      KeysetsMeans(rest);
      forall l | l in rest ensures l.computer != last.computer {
        var i :| 0 <= i < |rest| && rest[i] == l;
        assert layouts[i] == l;
      }
      assert last.computer !in Keysets(rest);
    }
  }

  /** No keyset opens exactly if every set lacks one. */
  lemma {:induction false} NoKeyset(layouts: seq<Layout>)
    ensures Keysets(layouts) == map[] <==> forall l :: l in layouts ==> l.mac.None?
    decreases |layouts|
  {
    if layouts != [] {
      var (rest, last) := (layouts[..|layouts| - 1], layouts[|layouts| - 1]);
      assert layouts == rest + [last];
      NoKeyset(rest);
      if last.mac.Some? {
        assert last.computer in Keysets(layouts);
      }
    }
  }

  method DecryptKeysets(layouts: seq<Layout>) returns (keysets: map<string, Mac>)
    ensures keysets == Keysets(layouts)
  {
    keysets := map[];
    for n := 0 to |layouts|
      invariant keysets == Keysets(layouts[..n])
    {
      assert layouts[..n + 1][..n] == layouts[..n];
      if layouts[n].mac.Some? {
        keysets := keysets[layouts[n].computer := layouts[n].mac.value];
      }
    }
    assert layouts[..|layouts|] == layouts;
  }

  const SKIPPED := ONE_FILE.(skipped := 1)

  /** What processing a file comes to: skipped when its set cannot be opened, audited otherwise. */
  function Effect(world: World, item: Item): Delta {
    var keysets := Keysets(world.layouts);
    if item.computer in keysets then Compute(Setting(world.backend, keysets[item.computer], world.cap), item)
        else SKIPPED
  }

  /** The outcome of a file of this backup set: its audit under the set's own key, or a skip where there is none. */
  ghost predicate OwnOutcome(world: World, l: Layout, item: Item, d: Delta) {
    d == if l.mac.Some? then Compute(Setting(world.backend, l.mac.value, world.cap), item)
         else Delta(1, 0, 0, 0, 1, 0, 0, 0, 0, [], None)
  }

  lemma EffectIsOwn(world: World, l: Layout, item: Item)
    requires Listed(world.layouts) && l in world.layouts && item.computer == l.computer
    ensures OwnOutcome(world, l, item, Effect(world, item))
  {
    hide Keysets, Compute, Listed;
    KeysetsMeans(world.layouts);
  }

  /** Each of these files' outcomes is that of its own backup set. */
  ghost predicate OwnOutcomes(world: World, items: seq<Item>, ds: seq<Delta>) {
    && |ds| == |items|
    && forall k, l :: 0 <= k < |items| && l in world.layouts && items[k].computer == l.computer
         ==> OwnOutcome(world, l, items[k], ds[k])
  }

  const NOTHING := Totals(0, 0, 0, 0, 0, 0, 0, 0, 0, 0, [], None)

  /** The totals of the files processed. */
  function Sum(log: seq<Delta>): Totals {
    if log == [] then NOTHING else Merge(Sum(log[..|log| - 1]), log[|log| - 1])
  }

  function UpTo<T>(xs: seq<T>, cap: nat): seq<T> {
    if |xs| <= cap then xs else xs[..cap]
  }

  /** An outcome of processing `item`: one file, in one class. */
  ghost predicate Judged(d: Delta, item: Item) {
    && d.total == 1 && d.ok + d.fail + d.error + d.skipped == 1 && |d.failures| == d.fail + d.error
    && forall f :: f in d.failures ==> f.item == item
  }

  lemma EffectJudged(world: World, item: Item)
    ensures Judged(Effect(world, item), item)
  {
    hide Compute, Keysets, Verified;
    var keysets := Keysets(world.layouts);
    if item.computer in keysets {
      Classified(Setting(world.backend, keysets[item.computer], world.cap), item);
    }
  }

  /** The log's entries are outcomes of the swept files, in order. */
  ghost predicate Matches(log: seq<Delta>, done: seq<Item>) {
    |log| == |done| && forall i :: 0 <= i < |log| ==> Judged(log[i], done[i])
  }

  lemma EffectClasses(world: World, item: Item)
    ensures var d := Effect(world, item); d.fail + d.error + d.skipped <= 1
    ensures Effect(world, item) == if item.computer in Keysets(world.layouts)
                                   then Compute(Setting(world.backend, Keysets(world.layouts)[item.computer],
                                       world.cap), item) else SKIPPED
  {
    hide Compute, Keysets;
    EffectJudged(world, item);
  }

  /** One file's audit, or its skip, on the fire's scratch totals. */
  method AuditInto(scratch: Auditor, world: World, keysets: map<string, Mac>, item: Item)
    requires keysets == Keysets(world.layouts)
    modifies scratch
    ensures scratch.State() == Merge(old(scratch.State()), Effect(world, item))
  {
    hide Compute, Keysets;
    if item.computer !in keysets {
      SkipIsMerge(scratch.State());
      scratch.total, scratch.skipped := scratch.total + 1, scratch.skipped + 1;
    } else {
      scratch.AuditOneFile(Setting(world.backend, keysets[item.computer], world.cap), item);
    }
  }

  lemma SkipIsMerge(t: Totals)
    ensures t.(total := t.total + 1, skipped := t.skipped + 1) == Merge(t, SKIPPED)
  {
    assert t.failures + [] == t.failures;
  }

  lemma SumStep(log: seq<Delta>, d: Delta)
    ensures Sum(log + [d]) == Merge(Sum(log), d)
  {
    assert (log + [d])[..|log|] == log;
  }

  lemma FreshSweep()
    ensures Sum([]) == NOTHING && Matches([], Swept([])) && Swept([]) == []
  {}

  lemma SweptNone(base: seq<Fire>, walk: seq<Item>)
    ensures Swept(base + [Fire(walk, 0)]) == Swept(base)
  {
    assert (base + [Fire(walk, 0)])[..|base|] == base;
  }

  lemma SweptOne(base: seq<Fire>, walk: seq<Item>, count: nat)
    requires IndexAfter(walk, LastOf(Swept(base))) + count < |walk|
    ensures var x := walk[IndexAfter(walk, LastOf(Swept(base))) + count];
            && Swept(base + [Fire(walk, count + 1)]) == Swept(base + [Fire(walk, count)]) + [x]
            && LastOf(Swept(base + [Fire(walk, count + 1)])) == Some(x)
  {
    hide IndexAfter, Swept, Slice;
    var start := IndexAfter(walk, LastOf(Swept(base)));
    SweptLast(base, Fire(walk, count));
    SweptLast(base, Fire(walk, count + 1));
    SliceOne(walk, start, count);
    var before := Swept(base) + Slice(Fire(walk, count), start);
    assert Swept(base + [Fire(walk, count + 1)]) == before + [walk[start + count]];
  }

  lemma SweptLast(base: seq<Fire>, f: Fire)
    ensures Swept(base + [f]) == Swept(base) + Slice(f, IndexAfter(f.walk, LastOf(Swept(base))))
  {
    hide IndexAfter, Slice;
    assert (base + [f])[..|base|] == base;
  }

  lemma SliceOne(walk: seq<Item>, start: nat, count: nat)
    requires start + count < |walk|
    ensures Slice(Fire(walk, count + 1), start) == Slice(Fire(walk, count), start) + [walk[start + count]]
  {}

  lemma MatchesOne(log: seq<Delta>, done: seq<Item>, d: Delta, item: Item)
    requires Matches(log, done) && Judged(d, item)
    ensures Matches(log + [d], done + [item])
  {
    hide Judged;
  }

  /** The effects, in this world, of processing the files in turn. */
  function Effects(world: World, items: seq<Item>): seq<Delta> {
    if items == [] then [] else Effects(world, items[..|items| - 1]) + [Effect(world, items[|items| - 1])]
  }

  lemma {:induction false} EffectsOwn(world: World, items: seq<Item>)
    requires Listed(world.layouts)
    ensures OwnOutcomes(world, items, Effects(world, items))
    decreases |items|
  {
    hide Effect, OwnOutcome, Listed;
    if items != [] {
      var n := |items| - 1;
      EffectsOwn(world, items[..n]);
      forall l | l in world.layouts && items[n].computer == l.computer
        ensures OwnOutcome(world, l, items[n], Effect(world, items[n]))
      {
        EffectIsOwn(world, l, items[n]);
      }
    }
  }

  lemma EffectsStep(baseLog: seq<Delta>, world: World, walk: seq<Item>, start: nat, idx: nat)
    requires start <= idx < |walk|
    ensures baseLog + Effects(world, walk[start..idx + 1])
        == baseLog + Effects(world, walk[start..idx]) + [Effect(world, walk[idx])]
  {
    hide Effect;
    assert walk[start..idx + 1][..idx - start] == walk[start..idx];
  }

  /** What processing walk[idx] adds to a sweep. */
  lemma NextFile(base: seq<Fire>, baseLog: seq<Delta>, log: seq<Delta>, world: World, walk: seq<Item>, start: nat,
      idx: nat)
    requires start == IndexAfter(walk, LastOf(Swept(base))) <= idx < |walk|
    requires Matches(log, Swept(base + [Fire(walk, idx - start)])) && log == baseLog + Effects(world, walk[start..idx])
    ensures var (after, more) := (Swept(base + [Fire(walk, idx - start + 1)]), log + [Effect(world, walk[idx])]);
            Matches(more, after) && LastOf(after) == Some(walk[idx])
                && more == baseLog + Effects(world, walk[start..idx + 1])
  {
    hide Swept, IndexAfter, Effect, Effects, Matches, LastOf, Judged;
    SweptOne(base, walk, idx - start);
    EffectJudged(world, walk[idx]);
    MatchesOne(log, Swept(base + [Fire(walk, idx - start)]), Effect(world, walk[idx]), walk[idx]);
    EffectsStep(baseLog, world, walk, start, idx);
  }

  lemma NoEffects(baseLog: seq<Delta>, world: World, walk: seq<Item>, start: nat)
    requires start <= |walk|
    ensures baseLog + Effects(world, walk[start..start]) == baseLog
  {}

  /** No fire can walk: discovery failed, or there is no computer whose keyset opens. */
  ghost predicate Unauditable(discovered: Option<World>) {
    discovered.None? || forall l :: l in discovered.value.layouts ==> l.mac.None?
  }

  /** AuditDripState; `fires` and `log` remember the current sweep. */
  class State {
    var sweepStartedAt: int
    var sweepCompletedAt: Option<int>
    var sweepCount: nat
    var cursor: Option<Item>
    var filesAudited: nat
    var filesTotal: nat
    var bytesAudited: nat
    var innerAudited: nat
    var innerOk: nat
    var innerFail: nat
    var fails: nat
    var errors: nat
    var skipped: nat
    var failedFiles: seq<Failure>
    var lastFireFiles: nat
    var lastFireAborted: Option<Aborted>
    var pausedUntil: Option<int>
    var error: bool
    const failedListCap: nat
    ghost var fires: seq<Fire>
    ghost var log: seq<Delta>

    ghost predicate CountersAre(t: Totals)
      reads `filesAudited, `bytesAudited, `innerAudited, `innerOk, `innerFail, `fails, `errors, `skipped, `failedFiles
    {
      && filesAudited == t.total && bytesAudited == t.bytesRead
      && innerAudited == t.innerTotal && innerOk == t.innerOk && innerFail == t.innerFail
      && fails == t.fail && errors == t.error && skipped == t.skipped
      && failedFiles == UpTo(t.failures, failedListCap)
    }

    predicate SweepOpen()
      reads `sweepStartedAt, `sweepCompletedAt
    {
      sweepStartedAt != 0 && sweepCompletedAt.None?
    }

    /** The counters are those of the files processed in this sweep, and the cursor is the last of them. */
    ghost predicate Valid()
      reads `filesAudited, `bytesAudited, `innerAudited, `innerOk, `innerFail, `fails, `errors, `skipped, `failedFiles
      reads `sweepStartedAt, `sweepCompletedAt, `cursor, `fires, `log
    {
      && CountersAre(Sum(log)) && Matches(log, Swept(fires))
      && (SweepOpen() ==> cursor == LastOf(Swept(fires)))
    }

    constructor (cap: nat)
      ensures Valid() && !SweepOpen() && fires == [] && pausedUntil.None? && failedListCap == cap
    {
      sweepStartedAt, sweepCompletedAt, sweepCount, cursor := 0, None, 0, None;
      filesAudited, filesTotal, bytesAudited, innerAudited, innerOk, innerFail := 0, 0, 0, 0, 0, 0;
      fails, errors, skipped, failedFiles := 0, 0, 0, [];
      lastFireFiles, lastFireAborted, pausedUntil, error := 0, None, None, false;
      failedListCap := cap;
      fires, log := [], [];
    }

    /** pause */
    method Pause(until: int)
      requires Valid()
      modifies `pausedUntil
      ensures Valid() && pausedUntil == Some(until)
    {
      pausedUntil := Some(until);
    }

    /** resume */
    method Resume()
      requires Valid()
      modifies `pausedUntil
      ensures Valid() && pausedUntil == None
    {
      pausedUntil := None;
    }

    predicate PausedAt(now: int)
      reads `pausedUntil
    {
      pausedUntil.Some? && (pausedUntil.value == -1 || now < pausedUntil.value)
    }

    /** Carry a file's share of the scratch totals over into the sweep's counters. */
    method CarryOver(pre: Totals, post: Totals, ghost d: Delta, ghost t: Totals)
      requires CountersAre(t) && post == Merge(pre, d) && d.fail + d.error + d.skipped <= 1
      modifies `filesAudited, `bytesAudited, `innerAudited, `innerOk, `innerFail, `fails, `errors, `skipped,
          `failedFiles
      ensures CountersAre(Merge(t, d))
    {
      filesAudited := filesAudited + (post.total - pre.total);
      bytesAudited := bytesAudited + (post.bytesRead - pre.bytesRead);
      innerAudited := innerAudited + (post.innerTotal - pre.innerTotal);
      innerOk := innerOk + (post.innerOk - pre.innerOk);
      innerFail := innerFail + (post.innerFail - pre.innerFail);
      if post.fail > pre.fail {
        fails := fails + 1;
      }
      if post.error > pre.error {
        errors := errors + 1;
      }
      if post.skipped > pre.skipped {
        skipped := skipped + 1;
      }
      CarryFailures(pre, post, d, t);
    }

    method CarryFailures(pre: Totals, post: Totals, ghost d: Delta, ghost t: Totals)
      requires post.failures == pre.failures + d.failures && failedFiles == UpTo(t.failures, failedListCap)
      modifies `failedFiles
      ensures failedFiles == UpTo(t.failures + d.failures, failedListCap)
    {
      assert post.failures[|pre.failures|..] == d.failures;
      if |post.failures| > |pre.failures| {
        failedFiles := failedFiles + post.failures[|pre.failures|..];
        if |failedFiles| > failedListCap {
          failedFiles := failedFiles[..failedListCap];
        }
      }
    }

    /** Process one file and move the cursor onto it. */
    method Process(scratch: Auditor, world: World, keysets: map<string, Mac>, item: Item)
      requires keysets == Keysets(world.layouts) && CountersAre(Sum(log))
      modifies scratch, `filesAudited, `bytesAudited, `innerAudited, `innerOk, `innerFail, `fails, `errors, `skipped,
          `failedFiles
      modifies `lastFireFiles, `cursor, `log
      ensures CountersAre(Sum(log)) && log == old(log) + [Effect(world, item)] && cursor == Some(item)
      ensures lastFireFiles == old(lastFireFiles) + 1
    {
      hide Effect, Keysets, Judged, Merge, CountersAre, Sum;
      var pre := scratch.State();
      AuditInto(scratch, world, keysets, item);
      ghost var d := Effect(world, item);
      EffectClasses(world, item);
      CarryOver(pre, scratch.State(), d, Sum(log));
      SumStep(log, d);
      log := log + [d];
      lastFireFiles := lastFireFiles + 1;
      cursor := Some(item);
    }

    /** The sweep's counters start again. */
    method ResetCounters()
      modifies `filesAudited, `bytesAudited, `innerAudited, `innerOk, `innerFail, `fails, `errors, `skipped,
          `failedFiles
      ensures CountersAre(NOTHING)
    {
      filesAudited, bytesAudited, innerAudited, innerOk, innerFail := 0, 0, 0, 0, 0;
      fails, errors, skipped, failedFiles := 0, 0, 0, [];
    }

    /** A new sweep. */
    method StartSweep(now: int, total: nat)
      modifies `filesAudited, `bytesAudited, `innerAudited, `innerOk, `innerFail, `fails, `errors, `skipped,
          `failedFiles
      modifies `sweepCount, `sweepStartedAt, `sweepCompletedAt, `cursor, `filesTotal, `fires, `log
      ensures sweepCount == old(sweepCount) + 1 && sweepStartedAt == now && sweepCompletedAt.None? && cursor.None?
          && filesTotal == total
      ensures log == [] && fires == [] && CountersAre(NOTHING)
    {
      hide CountersAre;
      ResetCounters();
      sweepCount, sweepStartedAt, sweepCompletedAt, cursor, filesTotal := sweepCount + 1, now, None, None, total;
      fires, log := [], [];
    }

    /** The sweep this fire works on: the open one, or a new one. */
    ghost function BaseFires(): seq<Fire>
      reads `sweepStartedAt, `sweepCompletedAt, `fires
    {
      if SweepOpen() then fires else []
    }

    ghost function BaseLog(): seq<Delta>
      reads `sweepStartedAt, `sweepCompletedAt, `log
    {
      if SweepOpen() then log else []
    }

    /** Nothing of the sweep changes. */
    twostate predicate SweepKept()
      reads this
    {
      unchanged(`sweepStartedAt, `sweepCompletedAt, `sweepCount, `cursor, `filesAudited, `filesTotal, `bytesAudited,
          `innerAudited,
                `innerOk, `innerFail, `fails, `errors, `skipped, `failedFiles, `fires, `log)
    }

    /** A sweep is started where none was open, and stamped when it is completed. */
    twostate predicate Timed(now: int, total: nat)
      reads this
    {
      && sweepCount == old(sweepCount) + (if old(SweepOpen()) then 0 else 1)
      && (if old(SweepOpen()) then sweepStartedAt == old(sweepStartedAt) && filesTotal == old(filesTotal)
          else sweepStartedAt == now && filesTotal == total)
      && (sweepCompletedAt.Some? ==> sweepCompletedAt.value == now && (lastFireFiles > 0 ==> cursor.None?))
    }

    /** What a fire does before its loop: it may find there is nothing to walk. */
    method Prepare(now: int, discovered: Option<World>) returns (keysets: map<string, Mac>, ready: bool)
      modifies `lastFireFiles, `lastFireAborted, `error
      ensures ready <==> !old(PausedAt(now)) && !Unauditable(discovered)
      ensures ready ==>
          keysets == Keysets(discovered.value.layouts) && lastFireFiles == 0 && lastFireAborted.None? && !error
      ensures !ready ==> lastFireFiles == 0
      ensures !ready ==> if old(PausedAt(now)) then lastFireAborted == Some(Paused) && error == old(error)
          else lastFireAborted.None? && error
    {
      hide Keysets;
      keysets, ready := map[], false;
      if pausedUntil.Some? && (pausedUntil.value == -1 || now < pausedUntil.value) {
        lastFireFiles, lastFireAborted := 0, Some(Paused);
        return;
      }
      lastFireAborted, lastFireFiles, error := None, 0, false;
      if discovered.None? || discovered.value.layouts == [] {
        error := true;
        return;
      }
      keysets := DecryptKeysets(discovered.value.layouts);
      NoKeyset(discovered.value.layouts);
      if |keysets| == 0 {
        error := true;
        return;
      }
      ready := true;
    }

    /**
     run_audit_drip. `discovered` is None when discovery raises. A fire that gets as far as a walk extends the
     sweep by one entry: the files from the one after the cursor on, until its deadline or the end.
    */
    method RunFire(now: int, discovered: Option<World>, timed: bool)
      requires Valid() && now > 0
      modifies this
      ensures Valid() && pausedUntil == old(pausedUntil)
      ensures lastFireAborted == Some(Paused) <==>
          pausedUntil.Some? && (pausedUntil.value == -1 || now < pausedUntil.value)
      ensures error == if lastFireAborted == Some(Paused) then old(error) else Unauditable(discovered)
      ensures old(PausedAt(now)) || Unauditable(discovered) ==> SweepKept() && lastFireFiles == 0
      ensures old(PausedAt(now)) ==> lastFireAborted == Some(Paused)
      ensures !old(PausedAt(now)) && !Unauditable(discovered) ==>
                if Walk(discovered.value.layouts) == []
                then sweepCompletedAt == Some(now) && cursor.None? && fires == old(fires) && log == old(log)
                else Extended(old(BaseFires()), old(BaseLog()), discovered.value, timed)
                     && Timed(now, |Walk(discovered.value.layouts)|)
    {
      hide Keysets, Walk, Valid, Extended;
      var keysets, ready := Prepare(now, discovered);
      if !ready {
        return;
      }
      SweepFrom(now, discovered.value, keysets, timed);
    }

    /** The rest of a fire: start a sweep if none is open, and go on with it. */
    method SweepFrom(now: int, world: World, keysets: map<string, Mac>, timed: bool)
      requires Valid() && now > 0 && keysets == Keysets(world.layouts) && lastFireFiles == 0 && lastFireAborted.None?
      modifies `filesAudited, `bytesAudited, `innerAudited, `innerOk, `innerFail, `fails, `errors, `skipped,
          `failedFiles
      modifies `lastFireFiles, `lastFireAborted, `sweepCount, `sweepStartedAt, `sweepCompletedAt, `cursor, `filesTotal,
      `fires, `log
      ensures Valid()
      ensures if Walk(world.layouts) == []
          then sweepCompletedAt == Some(now) && cursor.None? && fires == old(fires) && log == old(log)
              else Extended(old(BaseFires()), old(BaseLog()), world, timed) && Timed(now, |Walk(world.layouts)|)
      ensures lastFireAborted != Some(Paused)
    {
      hide Keysets, Walk, Sum, Swept, CountersAre, Matches, Effects, Extended;
      var walk := BuildWalk(world.layouts);
      if |walk| == 0 {
        cursor, sweepCompletedAt := None, Some(now);
        return;
      }
      if sweepCompletedAt.Some? || sweepStartedAt == 0 {
        StartSweep(now, |walk|);
        FreshSweep();
      }
      SweepOn(now, world, keysets, walk, timed);
    }

    /** The loop of a fire, on an open sweep. */
    method SweepOn(now: int, world: World, keysets: map<string, Mac>, walk: seq<Item>, timed: bool)
      requires Valid() && SweepOpen() && walk == Walk(world.layouts) && walk != [] && keysets == Keysets(world.layouts)
      requires lastFireFiles == 0 && lastFireAborted.None? && now > 0
      modifies `filesAudited, `bytesAudited, `innerAudited, `innerOk, `innerFail, `fails, `errors, `skipped,
          `failedFiles
      modifies `lastFireFiles, `lastFireAborted, `cursor, `sweepCompletedAt, `fires, `log
      ensures Valid() && Extended(old(fires), old(log), world, timed)
      ensures sweepCompletedAt.Some? ==> sweepCompletedAt.value == now && (lastFireFiles > 0 ==> cursor.None?)
      ensures lastFireAborted != Some(Paused)
    {
      hide Keysets, Judged, Walk, Sum, Swept, CountersAre, IndexAfter, Matches, Effect, Effects, LastOf, OwnOutcomes,
           Listed;
      ghost var (base, baseLog) := (fires, log);
      var start := IndexAfterCursor(walk, cursor);
      fires := base + [Fire(walk, 0)];
      SweptNone(base, walk);
      NoEffects(baseLog, world, walk, start);
      if start >= |walk| {
        sweepCompletedAt := Some(now);
        AddedOwn(world, walk[start..start], baseLog, log);
        return;
      }
      assert Mid(base, baseLog, world, walk, start, start);
      var idx := SweepLoop(world, keysets, walk, start, timed, base, baseLog);
      AddedOwn(world, walk[start..idx], baseLog, log);
      if idx == |walk| {
        sweepCompletedAt, cursor := Some(now), None;
      }
    }

    /** Files start..idx of the walk have been processed. */
    ghost predicate Mid(base: seq<Fire>, baseLog: seq<Delta>, world: World, walk: seq<Item>, start: nat, idx: nat)
      reads `filesAudited, `bytesAudited, `innerAudited, `innerOk, `innerFail, `fails, `errors, `skipped, `failedFiles
      reads `lastFireFiles, `cursor, `fires, `log
    {
      && start == IndexAfter(walk, LastOf(Swept(base))) <= idx <= |walk| && lastFireFiles == idx - start
      && fires == base + [Fire(walk, idx - start)]
      && CountersAre(Sum(log)) && Matches(log, Swept(fires)) && cursor == LastOf(Swept(fires))
      && log == baseLog + Effects(world, walk[start..idx])
    }

    method SweepLoop(world: World, keysets: map<string, Mac>, walk: seq<Item>, start: nat, timed: bool,
        ghost base: seq<Fire>, ghost baseLog: seq<Delta>)
      returns (idx: nat)
      requires keysets == Keysets(world.layouts) && start <= |walk| && lastFireAborted.None?
          && Mid(base, baseLog, world, walk, start, start)
      modifies `filesAudited, `bytesAudited, `innerAudited, `innerOk, `innerFail, `fails, `errors, `skipped,
          `failedFiles
      modifies `lastFireFiles, `lastFireAborted, `cursor, `fires, `log
      ensures start <= idx <= |walk| && Mid(base, baseLog, world, walk, start, idx)
      ensures (lastFireAborted.Some? <==> idx < |walk|)
      ensures lastFireAborted.Some? ==> lastFireAborted == Some(Deadline) && timed
    {
      hide Keysets, Mid;
      var scratch := new Auditor(None);
      idx := start;
      while idx < |walk|
        invariant start <= idx <= |walk| && Mid(base, baseLog, world, walk, start, idx) && lastFireAborted.None?
      {
        var late: bool := *;
        if timed && late {
          lastFireAborted := Some(Deadline);
          return;
        }
        TakeNext(scratch, world, keysets, walk, start, idx, base, baseLog);
        idx := idx + 1;
      }
    }

    method TakeNext(scratch: Auditor, world: World, keysets: map<string, Mac>, walk: seq<Item>, start: nat, idx: nat,
                    ghost base: seq<Fire>, ghost baseLog: seq<Delta>)
      requires keysets == Keysets(world.layouts) && start <= idx < |walk| && Mid(base, baseLog, world, walk, start, idx)
      modifies scratch, `filesAudited, `bytesAudited, `innerAudited, `innerOk, `innerFail, `fails, `errors, `skipped,
          `failedFiles
      modifies `lastFireFiles, `cursor, `fires, `log
      ensures Mid(base, baseLog, world, walk, start, idx + 1)
    {
      hide Keysets, Sum, Swept, CountersAre, IndexAfter, Matches, Effect, Effects, LastOf;
      NextFile(base, baseLog, log, world, walk, start, idx);
      Process(scratch, world, keysets, walk[idx]);
      fires := base + [Fire(walk, idx - start + 1)];
    }

    /** The current sweep is `base` and one more fire over this world's walk, which processed the files it should. */
    ghost predicate Extended(base: seq<Fire>, baseLog: seq<Delta>, world: World, timed: bool)
      reads `lastFireFiles, `lastFireAborted, `sweepCompletedAt, `fires, `log
    {
      var w := Walk(world.layouts);
      var start := IndexAfter(w, LastOf(Swept(base)));
      var end := start + lastFireFiles;
      && fires == base + [Fire(w, lastFireFiles)] && end <= |w|
      && (sweepCompletedAt.Some? <==> end == |w|) && (lastFireAborted.Some? <==> end < |w|)
      && (lastFireAborted.Some? ==> timed)
      && log == baseLog + Effects(world, w[start..end])
      && (Listed(world.layouts) ==> OwnOutcomes(world, w[start..end], log[|baseLog|..]))
    }
  }

  /** The part of the log this fire added, under each set's own key. */
  lemma AddedOwn(world: World, items: seq<Item>, baseLog: seq<Delta>, log: seq<Delta>)
    requires log == baseLog + Effects(world, items)
    ensures Listed(world.layouts) ==> OwnOutcomes(world, items, log[|baseLog|..])
  {
    hide Effects, OwnOutcomes, Listed;
    assert log[|baseLog|..] == Effects(world, items);
    if Listed(world.layouts) {
      EffectsOwn(world, items);
    }
  }

  lemma {:induction false} SumClasses(log: seq<Delta>, done: seq<Item>)
    requires Matches(log, done)
    ensures var t := Sum(log);
        t.total == |done| && t.total == t.ok + t.fail + t.error + t.skipped && |t.failures| == t.fail + t.error
    decreases |log|
  {
    if log != [] {
      var n := |log| - 1;
      assert Judged(log[n], done[n]);
      SumClasses(log[..n], done[..n]);
    }
  }

  function Tally(log: seq<Delta>, count: Delta -> nat): nat {
    if log == [] then 0 else Tally(log[..|log| - 1], count) + count(log[|log| - 1])
  }

  function AllFailures(log: seq<Delta>): seq<Failure> {
    if log == [] then [] else AllFailures(log[..|log| - 1]) + log[|log| - 1].failures
  }

  function BytesOf(d: Delta): nat { d.bytesRead }
  function ObjectsOf(d: Delta): nat { d.innerTotal }
  function GoodOf(d: Delta): nat { d.innerOk }
  function BadOf(d: Delta): nat { d.innerFail }
  function FailsOf(d: Delta): nat { d.fail }
  function ErrorsOf(d: Delta): nat { d.error }
  function SkipsOf(d: Delta): nat { d.skipped }

  lemma {:induction false} SumTallies(log: seq<Delta>)
    ensures var t := Sum(log);
            && t.bytesRead == Tally(log, BytesOf) && t.innerTotal == Tally(log, ObjectsOf)
            && t.innerOk == Tally(log, GoodOf) && t.innerFail == Tally(log, BadOf)
            && t.fail == Tally(log, FailsOf) && t.error == Tally(log, ErrorsOf) && t.skipped == Tally(log, SkipsOf)
            && t.failures == AllFailures(log)
    decreases |log|
  {
    if log != [] {
      SumTallies(log[..|log| - 1]);
    }
  }

  /** At any time: the counters add up to the files processed in this sweep, and to what each of them came to. */
  lemma CountersAddUp(s: State)
    requires s.Valid()
    ensures var log := s.log;
            && s.bytesAudited == Tally(log, BytesOf) && s.innerAudited == Tally(log, ObjectsOf)
            && s.innerOk == Tally(log, GoodOf) && s.innerFail == Tally(log, BadOf)
            && s.fails == Tally(log, FailsOf) && s.errors == Tally(log, ErrorsOf) && s.skipped == Tally(log, SkipsOf)
            && s.failedFiles == if |AllFailures(log)| <= s.failedListCap then AllFailures(log)
                                else AllFailures(log)[..s.failedListCap]
    ensures s.filesAudited == |Swept(s.fires)| && s.fails + s.errors + s.skipped <= s.filesAudited
    ensures |s.failedFiles| == if s.fails + s.errors <= s.failedListCap then s.fails + s.errors else s.failedListCap
  {
    hide Sum, Swept, Matches, Tally, AllFailures;
    SumTallies(s.log);
    SumClasses(s.log, Swept(s.fires));
  }

  /**
   A fire that completes its sweep: if every walk of the sweep was increasing, no file was processed twice, every
   file present from the first fire to the last was processed, and the counters count exactly those processed.
  */
  lemma CompletedSweepIsExact(s: State, base: seq<Fire>, baseLog: seq<Delta>, world: World, timed: bool)
    requires s.Valid() && s.Extended(base, baseLog, world, timed) && s.sweepCompletedAt.Some? && AllIncreasing(s.fires)
    ensures Increasing(Swept(s.fires)) && s.filesAudited == |Swept(s.fires)|
    ensures forall x :: Throughout(s.fires, x) ==> x in Swept(s.fires)
  {
    hide Sum, Matches, Walk, Increasing, IndexAfter, Effects, AllIncreasing;
    CountersAddUp(s);
    assert s.fires[..|s.fires| - 1] == base;
    SweepsOnce(s.fires);
  }
}
