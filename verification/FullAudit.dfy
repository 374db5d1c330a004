/** run_full_audit: its sequential and parallel drivers, and the run over every backup set. */
module FullAudit {
  import opened Wrappers
  import opened Arqo
  import opened AuditCore
  import opened Schedule
  import opened Layouts

  datatype Abort = MaxRuntime | MaxBytes | KeysetFailed

  /** _budget_check. Whether the deadline has passed is the clock's choice. */
  method BudgetCheck(r: Auditor, maxBytes: Option<nat>, timed: bool) returns (abort: Option<Abort>)
    ensures abort.None? ==> maxBytes.None? || r.bytesRead < maxBytes.value
    ensures abort.Some? ==> Justified(abort.value, r.bytesRead, maxBytes, timed)
  {
    var late: bool := *;
    if timed && late {
      return Some(MaxRuntime);
    }
    if maxBytes.Some? && r.bytesRead >= maxBytes.value {
      return Some(MaxBytes);
    }
    return None;
  }

  predicate Justified(abort: Abort, bytesRead: nat, maxBytes: Option<nat>, timed: bool) {
    match abort
    case MaxRuntime => timed
    case MaxBytes => maxBytes.Some? && bytesRead >= maxBytes.value
    case KeysetFailed => false
  }

  /** _run_sequential. `done` is how many files it handled before stopping. */
  method RunSequential(r: Auditor, j: Job, timed: bool) returns (abort: Option<Abort>, ghost done: nat)
    modifies r
    ensures done <= |j.items| && r.State() == Fold(j.s, old(r.State()), j.items[..done])
    ensures abort.None? ==> done == |j.items|
    ensures abort.Some? ==> Justified(abort.value, r.bytesRead, j.maxBytes, timed)
    ensures done > 0 ==> BudgetLeft(j, Fold(j.s, old(r.State()), j.items[..done - 1]))
  {
    hide Compute, Fold, Finalize, SkipByLedger;
    var i := 0;
    FoldNone(j.s, r.State(), j.items);
    while i < |j.items|
      invariant 0 <= i <= |j.items| && r.State() == Fold(j.s, old(r.State()), j.items[..i])
      invariant i > 0 ==> BudgetLeft(j, Fold(j.s, old(r.State()), j.items[..i - 1]))
    {
      abort := BudgetCheck(r, j.maxBytes, timed);
      if abort.Some? {
        return abort, i;
      }
      var item := j.items[i];
      FoldStep(j.s, old(r.State()), j.items, i);
      if r.ledger.Some? && item.name in r.ledger.value {
        r.CountLedgerSkip();
      } else {
        var d := ComputeFile(j.s, item);
        r.MergeAndFinalize(d);
      }
      i := i + 1;
    }
    return None, |j.items|;
  }

  lemma FoldNone(s: Setting, t: Totals, items: seq<Item>)
    ensures Fold(s, t, items[..0]) == t
  {}

  /** Waiting for one of the futures: whichever it is, its delta is merged. */
  method MergeOne(r: Auditor, s: Setting, inFlight: seq<Item>) returns (rest: seq<Item>, ghost k: nat)
    requires inFlight != []
    modifies r
    ensures k < |inFlight| && rest == Without(inFlight, k)
        && r.State() == Finalize(old(r.State()), Compute(s, inFlight[k]))
    ensures r.bytesRead >= old(r.bytesRead)
  {
    var done :| 0 <= done < |inFlight|;
    var d := ComputeFile(s, inFlight[done]);
    r.MergeAndFinalize(d);
    return Without(inFlight, done), done;
  }

  /** Merging the futures found done: at least one if `least`, then as many more as happen to be. */
  method MergeDone(r: Auditor, j: Job, inFlight: seq<Item>, ghost start: Totals, ghost before: seq<Event>)
    returns (rest: seq<Item>, ghost trace: seq<Event>)
    requires inFlight != [] && Exec(j, start, before).Some?
    requires var p := Exec(j, start, before).value; p.inFlight == inFlight && p.t == r.State()
    modifies r
    ensures |rest| < |inFlight| && r.bytesRead >= old(r.bytesRead)
    ensures Exec(j, start, trace) == Some(Exec(j, start, before).value.(inFlight := rest, t := r.State()))
  {
    hide Exec, Compute, Finalize, Without;
    ghost var k: nat;
    rest, k := MergeOne(r, j.s, inFlight);
    ExecStep(j, start, before, Complete(k));
    trace := before + [Complete(k)];
    Shorter(inFlight, k);
    var more: bool := *;
    while more && rest != []
      invariant |rest| < |inFlight| && r.bytesRead >= old(r.bytesRead)
      invariant Exec(j, start, trace) == Some(Exec(j, start, before).value.(inFlight := rest, t := r.State()))
      decreases |rest|
    {
      ghost var was := rest;
      rest, k := MergeOne(r, j.s, rest);
      ExecStep(j, start, trace, Complete(k));
      trace := trace + [Complete(k)];
      Shorter(was, k);
      more := *;
    }
  }

  lemma Shorter(inFlight: seq<Item>, k: nat)
    requires k < |inFlight|
    ensures |Without(inFlight, k)| == |inFlight| - 1
  {}

  /** _run_parallel. Everything in flight is merged before it returns, even on an abort. */
  method RunParallel(r: Auditor, j: Job, timed: bool) returns (abort: Option<Abort>, ghost trace: seq<Event>)
    requires j.workers >= 1
    modifies r
    ensures var p := Exec(j, old(r.State()), trace); p.Some? && p.value.inFlight == [] && p.value.t == r.State()
    ensures abort.None? ==> Finished(j, old(r.State()), trace)
    ensures abort.Some? ==> Justified(abort.value, r.bytesRead, j.maxBytes, timed)
  {
    hide Compute, Exec, Finalize, SkipByLedger;
    ghost var start := r.State();
    var inFlight: seq<Item> := [];
    abort, trace := None, [];
    Nothing(j, start);
    var i := 0;
    while i < |j.items|
      invariant 0 <= i <= |j.items| && |inFlight| <= 2 * j.workers
      invariant Exec(j, start, trace) == Some(Pool(i, false, inFlight, r.State()))
      invariant abort.None?
      decreases |j.items| - i
    {
      abort := BudgetCheck(r, j.maxBytes, timed);
      if abort.Some? {
        break;
      }
      ExecStep(j, start, trace, Check);
      trace := trace + [Check];
      if r.ledger.Some? && j.items[i].name in r.ledger.value {
        r.CountLedgerSkip();
      } else {
        if |inFlight| >= 2 * j.workers {
          inFlight, trace := MergeDone(r, j, inFlight, start, trace);
          abort := BudgetCheck(r, j.maxBytes, timed);
          if abort.Some? {
            break;
          }
        }
        ExecStep(j, start, trace, Submit);
        inFlight, trace := inFlight + [j.items[i]], trace + [Submit];
      }
      i := i + 1;
    }
    while inFlight != []
      invariant var p := Exec(j, start, trace);
          p.Some? && p.value.fed == i && p.value.inFlight == inFlight && p.value.t == r.State()
      invariant abort.None? ==> i == |j.items|
      invariant abort.Some? ==> Justified(abort.value, r.bytesRead, j.maxBytes, timed)
      decreases |inFlight|
    {
      inFlight, trace := MergeDone(r, j, inFlight, start, trace);
    }
  }

  lemma Nothing(j: Job, start: Totals)
    ensures Exec(j, start, []) == Some(Pool(0, false, [], start))
  {}

  function Slack(workers: nat, largest: nat): nat {
    if workers == 1 then largest else 2 * workers * largest
  }

  /** One family of one backup set, by whichever driver the concurrency asks for. */
  method RunJob(r: Auditor, j: Job, timed: bool, ghost largest: nat) returns (abort: Option<Abort>)
    requires j.workers >= 1 && Accounted(r.State()) && BodiesWithin(j.s, j.items, largest)
    requires ReadWithin(r.bytesRead, j.maxBytes, Slack(j.workers, largest))
    modifies r
    ensures Accounted(r.State()) && LedgerGrows(j.s, j.items, old(r.ledger), r.ledger)
    ensures ReadWithin(r.bytesRead, j.maxBytes, Slack(j.workers, largest))
    ensures abort.Some? ==> Justified(abort.value, r.bytesRead, j.maxBytes, timed)
    ensures abort.None? && j.workers == 1 ==> r.State() == Fold(j.s, old(r.State()), j.items)
    ensures abort.None? && (old(r.ledger).None? || DistinctNames(j.items)) ==>
              Unordered(r.State()) == Unordered(Fold(j.s, old(r.State()), j.items))
    ensures Onward(old(r.State()), r.State()) && Truthful(j.s, j.items, old(r.failures), r.failures)
    ensures abort.None? ==>
        r.total == old(r.total) + |j.items| && forall x :: x in j.items ==> Settled(j.s, r.State(), x)
  {
    hide Fold, Exec, Accounted, LedgerGrows, BodiesWithin, ReadWithin, Clash, DistinctNames, Justified, Truthful,
         Settled, Onward;
    ghost var start := r.State();
    if j.workers == 1 {
      ghost var done: nat;
      abort, done := RunSequential(r, j, timed);
      FoldSane(j, start, done);
      FoldSettles(j.s, start, j.items[..done]);
      FoldTotal(j.s, start, j.items[..done]);
      MoreTruthful(j.s, j.items[..done], j.items, start.failures, r.failures);
      SequentialOvershoot(j, start, done, largest);
      assert j.items[..|j.items|] == j.items;
    } else {
      ghost var trace: seq<Event>;
      abort, trace := RunParallel(r, j, timed);
      AlwaysSane(j, start, trace);
      NeverSilent(j, start, trace);
      OvershootBound(j, start, trace, largest);
      if abort.None? && (start.ledger.None? || DistinctNames(j.items)) {
        DistinctNamesNeverClash(j, start);
        ParallelEqualsSequential(j, start, trace);
      }
    }
  }

  /* ---- The whole run ---- */

  /** The arguments of run_full_audit that the run depends on. */
  datatype Config = Config(backend: Item -> Answer, cap: Option<nat>, maxBytes: Option<nat>, timed: bool,
                           requested: int, concurrentReads: bool)

  /** The clamp to [1, 64], and to 1 where the backend cannot read concurrently. */
  function Workers(c: Config): (n: nat)
    ensures 1 <= n <= 64 && (!c.concurrentReads ==> n == 1)
    ensures c.concurrentReads ==>
        (c.requested < 1 ==> n == 1) && (c.requested > 64 ==> n == 64) && (1 <= c.requested <= 64 ==> n == c.requested)
  {
    var n := if c.requested < 1 then 1 else if c.requested > 64 then 64 else c.requested;
    if n > 1 && !c.concurrentReads then 1 else n
  }

  function JobOf(c: Config, l: Layout, kind: string): Job
    requires l.mac.Some?
  {
    Job(Setting(c.backend, l.mac.value, c.cap), Items(l.computer, kind, FamilyItems(l, kind)), Workers(c), c.maxBytes)
  }

  /** The four families of one backup set, in OBJECT_FAMILIES order; none for a set whose key is missing. */
  function JobsOf(c: Config, l: Layout): seq<Job> {
    if l.mac.None? then []
    else [JobOf(c, l, BLOBPACKS), JobOf(c, l, TREEPACKS), JobOf(c, l, LARGEBLOBPACKS), JobOf(c, l, STANDARDOBJECTS)]
  }

  function AllJobs(c: Config, layouts: seq<Layout>): seq<Job> {
    if layouts == [] then [] else AllJobs(c, layouts[..|layouts| - 1]) + JobsOf(c, layouts[|layouts| - 1])
  }

  /** Under what a backup set's files are audited. */
  function SettingOf(c: Config, l: Layout): Setting
    requires l.mac.Some?
  {
    Setting(c.backend, l.mac.value, c.cap)
  }

  ghost predicate InSomeJob(jobs: seq<Job>, s: Setting, x: Item) {
    exists j :: j in jobs && j.s == s && x in j.items
  }

  ghost predicate InSomeSet(c: Config, layouts: seq<Layout>, s: Setting, x: Item) {
    exists l :: l in layouts && l.mac.Some? && SettingOf(c, l) == s && FileOf(l, x)
  }

  lemma JobCovers(c: Config, l: Layout, kind: string, x: Item)
    requires l.mac.Some?
    ensures var j := JobOf(c, l, kind);
            && j.s == SettingOf(c, l) && |j.items| == |FamilyItems(l, kind)|
            && (x in j.items <==>
                  x.computer == l.computer && x.family == kind && (x.shard, x.name) in FamilyItems(l, kind))
  {
    hide FamilyItems;
    var (j, files) := (JobOf(c, l, kind), FamilyItems(l, kind));
    if x.computer == l.computer && x.family == kind && (x.shard, x.name) in files {
      var i :| 0 <= i < |files| && files[i] == (x.shard, x.name);
      assert j.items[i] == x;
    }
  }

  /** One set's jobs are over its listed files, under its own key. */
  lemma SetCovers(c: Config, l: Layout, s: Setting, x: Item)
    ensures InSomeJob(JobsOf(c, l), s, x) <==> l.mac.Some? && SettingOf(c, l) == s && FileOf(l, x)
    ensures SizeOf(JobsOf(c, l)) == if l.mac.Some? then FilesIn(l) else 0
  {
    hide JobOf, FamilyItems, FileOf, SettingOf;
    FamiliesCover(l, x);
    if l.mac.Some? {
      JobCovers(c, l, BLOBPACKS, x);
      JobCovers(c, l, TREEPACKS, x);
      JobCovers(c, l, LARGEBLOBPACKS, x);
      JobCovers(c, l, STANDARDOBJECTS, x);
      var js := JobsOf(c, l);
      assert js[0] in js && js[1] in js && js[2] in js && js[3] in js;
      FourSizes(js);
    }
  }

  /** How many files the jobs hold. */
  function SizeOf(jobs: seq<Job>): nat {
    if jobs == [] then 0 else SizeOf(jobs[..|jobs| - 1]) + |jobs[|jobs| - 1].items|
  }

  lemma FourSizes(js: seq<Job>)
    requires |js| == 4
    ensures SizeOf(js) == |js[0].items| + |js[1].items| + |js[2].items| + |js[3].items|
  {
    assert js[..3][..2] == js[..2] && js[..2][..1] == js[..1] && js[..1][..0] == [];
    assert SizeOf(js[..1]) == |js[0].items|;
    assert SizeOf(js[..2]) == SizeOf(js[..1]) + |js[1].items|;
    assert SizeOf(js[..3]) == SizeOf(js[..2]) + |js[2].items|;
  }

  lemma {:induction false} SizesAdd(a: seq<Job>, b: seq<Job>)
    ensures SizeOf(a + b) == SizeOf(a) + SizeOf(b)
    decreases |b|
  {
    if b == [] {
      assert a + b == a;
    } else {
      SizesAdd(a, b[..|b| - 1]);
      assert (a + b)[..|a + b| - 1] == a + b[..|b| - 1];
    }
  }

  /** The files of all sets that can be opened. */
  function FilesOf(layouts: seq<Layout>): nat {
    if layouts == [] then 0
    else
      var l := layouts[|layouts| - 1];
      FilesOf(layouts[..|layouts| - 1]) + if l.mac.Some? then FilesIn(l) else 0
  }

  /** The jobs hold exactly the listed files of the sets that can be opened, each under its own set's key. */
  lemma {:induction false} AllJobsCover(c: Config, layouts: seq<Layout>, s: Setting, x: Item)
    ensures InSomeJob(AllJobs(c, layouts), s, x) <==> InSomeSet(c, layouts, s, x)
    ensures SizeOf(AllJobs(c, layouts)) == FilesOf(layouts)
    decreases |layouts|
  {
    hide JobsOf, FileOf, SettingOf, SizeOf, FilesIn;
    if layouts == [] {
      assert SizeOf([]) == 0 by { NoJobs(); }
    } else {
      var (rest, l) := (layouts[..|layouts| - 1], layouts[|layouts| - 1]);
      assert layouts == rest + [l];
      AllJobsCover(c, rest, s, x);
      SetCovers(c, l, s, x);
      SizesAdd(AllJobs(c, rest), JobsOf(c, l));
      JobsJoin(AllJobs(c, rest), JobsOf(c, l), s, x);
    }
  }

  lemma NoJobs()
    ensures SizeOf([]) == 0
  {}

  lemma JobsJoin(a: seq<Job>, b: seq<Job>, s: Setting, x: Item)
    ensures InSomeJob(a + b, s, x) <==> InSomeJob(a, s, x) || InSomeJob(b, s, x)
  {}

  function FoldJobs(t: Totals, jobs: seq<Job>): Totals {
    if jobs == [] then t
    else Fold(jobs[|jobs| - 1].s, FoldJobs(t, jobs[..|jobs| - 1]), jobs[|jobs| - 1].items)
  }

  /** Some file of that name, in one of the jobs, is verified under its set's key. */
  ghost predicate VerifiedName(jobs: seq<Job>, name: string) {
    exists j, i :: j in jobs && i in j.items && i.name == name && Verified(j.s, i)
  }

  ghost predicate Grows(jobs: seq<Job>, before: Option<set<string>>, after: Option<set<string>>) {
    && (before.Some? <==> after.Some?)
    && (before.Some? ==> before.value <= after.value && forall n ::
        n in after.value - before.value ==> VerifiedName(jobs, n))
  }

  ghost predicate AllWithin(jobs: seq<Job>, largest: nat) {
    forall j :: j in jobs ==> BodiesWithin(j.s, j.items, largest)
  }

  ghost predicate AllDistinct(jobs: seq<Job>) {
    forall j :: j in jobs ==> DistinctNames(j.items)
  }

  /** What the run has established once it has completed `done` of all its jobs. */
  ghost predicate Progress(c: Config, start: Totals, done: seq<Job>, t: Totals, largest: nat) {
    && Accounted(t) && Grows(done, start.ledger, t.ledger)
    && ReadWithin(t.bytesRead, c.maxBytes, Slack(Workers(c), largest))
    && (Workers(c) == 1 ==> t == FoldJobs(start, done))
    && (start.ledger.None? || AllDistinct(done) ==> Unordered(t) == Unordered(FoldJobs(start, done)))
    && Onward(start, t) && AllTrue(done, start.failures, t.failures) && AllSettled(done, t)
    && t.total == start.total + SizeOf(done)
  }

  ghost predicate AllSettled(jobs: seq<Job>, t: Totals) {
    forall s, x :: InSomeJob(jobs, s, x) ==> Settled(s, t, x)
  }

  /** Every new failure names a file of the jobs, for what is wrong with it under its set's key. */
  ghost predicate AllTrue(jobs: seq<Job>, before: seq<Failure>, after: seq<Failure>) {
    forall f :: f in after ==> f in before || exists s :: InSomeJob(jobs, s, f.item) && Because(s, f.item, f.why)
  }

  /** What remains established when a job is cut off. */
  ghost predicate Partial(c: Config, start: Totals, all: seq<Job>, t: Totals, largest: nat) {
    && Accounted(t) && Grows(all, start.ledger, t.ledger)
    && ReadWithin(t.bytesRead, c.maxBytes, Slack(Workers(c), largest))
    && Onward(start, t) && AllTrue(all, start.failures, t.failures)
  }

  /** No listed file of a set that can be opened passes unnoticed, and all of them are counted. */
  ghost predicate NoneUnnoticed(c: Config, layouts: seq<Layout>, start: Totals, t: Totals) {
    && (forall l, x :: l in layouts && l.mac.Some? && FileOf(l, x) ==> Settled(SettingOf(c, l), t, x))
    && t.total == start.total + FilesOf(layouts)
  }

  /**
   Every new failure names a listed file of a set that can be opened, for what is wrong with it under that set's key.
  */
  ghost predicate NothingUntold(c: Config, layouts: seq<Layout>, before: seq<Failure>, after: seq<Failure>) {
    forall f :: f in after && f !in before ==>
      exists l :: l in layouts && l.mac.Some? && FileOf(l, f.item) && Because(SettingOf(c, l), f.item, f.why)
  }

  lemma RunTells(c: Config, layouts: seq<Layout>, start: Totals, t: Totals)
    requires AllTrue(AllJobs(c, layouts), start.failures, t.failures)
    ensures NothingUntold(c, layouts, start.failures, t.failures)
    ensures AllSettled(AllJobs(c, layouts), t) && t.total == start.total + SizeOf(AllJobs(c, layouts))
        ==> NoneUnnoticed(c, layouts, start, t)
  {
    hide AllJobs, FileOf, SettingOf, Because, Settled, InSomeJob, FilesOf, SizeOf;
    forall s, x ensures InSomeJob(AllJobs(c, layouts), s, x) <==> InSomeSet(c, layouts, s, x) {
      AllJobsCover(c, layouts, s, x);
    }
    AllJobsCover(c, layouts, Setting(c.backend, b => b, c.cap), Item("", "", "", ""));
  }

  /**
   run_full_audit. A run that is not cut off ends with the sequential totals: exactly so with one worker, and up
   to the order of failures with more, where names are distinct within each family or there is no ledger.
  */
  method RunFullAudit(r: Auditor, c: Config, layouts: seq<Layout>, ghost largest: nat)
    returns (abort: Option<Abort>, skippedSets: seq<string>)
    requires Accounted(r.State()) && r.bytesRead == 0 && AllWithin(AllJobs(c, layouts), largest)
    modifies r
    ensures Partial(c, old(r.State()), AllJobs(c, layouts), r.State(), largest)
    ensures abort.None? || abort.value.KeysetFailed?
        ==> Progress(c, old(r.State()), AllJobs(c, layouts), r.State(), largest)
    ensures abort.Some? ==> if abort.value.KeysetFailed? then layouts != [] && AllJobs(c, layouts) == []
                            else Justified(abort.value, r.bytesRead, c.maxBytes, c.timed)
    ensures abort.None? ==> skippedSets == KeylessSets(layouts)
    ensures NothingUntold(c, layouts, old(r.failures), r.failures)
    ensures abort.None? ==> NoneUnnoticed(c, layouts, old(r.State()), r.State())
  {
    hide Fold, Accounted, Grows, ReadWithin, AllJobs, Justified, JobsOf, Progress, Partial, AllWithin, NothingUntold,
         NoneUnnoticed;
    ghost var start := r.State();
    abort, skippedSets := None, [];
    var auditedAny := false;
    NothingDone(c, start, layouts, largest);
    var n := 0;
    while n < |layouts|
      invariant 0 <= n <= |layouts| && abort.None?
      invariant Progress(c, start, AllJobs(c, layouts[..n]), r.State(), largest)
      invariant skippedSets == KeylessSets(layouts[..n])
      invariant !auditedAny <==> AllJobs(c, layouts[..n]) == []
    {
      var l := layouts[n];
      LayoutStep(c, layouts, n);
      if l.mac.None? {
        skippedSets := skippedSets + [l.computer];
      } else {
        auditedAny := true;
        abort := RunLayout(r, c, l, AllJobs(c, layouts[..n]), AllJobs(c, layouts), start, largest);
        if abort.Some? {
          PartialTells(c, layouts, start, r.State(), largest);
          return;
        }
      }
      n := n + 1;
    }
    assert layouts[..n] == layouts;
    ProgressTells(c, layouts, start, r.State(), largest);
    ProgressIsPartial(c, start, AllJobs(c, layouts), r.State(), largest);
    if layouts != [] && !auditedAny {
      abort := Some(KeysetFailed);
    }
  }

  lemma PartialTells(c: Config, layouts: seq<Layout>, start: Totals, t: Totals, largest: nat)
    requires Partial(c, start, AllJobs(c, layouts), t, largest)
    ensures NothingUntold(c, layouts, start.failures, t.failures)
  {
    hide AllJobs, AllTrue, NothingUntold;
    RunTells(c, layouts, start, t);
  }

  lemma ProgressTells(c: Config, layouts: seq<Layout>, start: Totals, t: Totals, largest: nat)
    requires Progress(c, start, AllJobs(c, layouts), t, largest)
    ensures NothingUntold(c, layouts, start.failures, t.failures) && NoneUnnoticed(c, layouts, start, t)
  {
    hide AllJobs, AllTrue, NothingUntold, NoneUnnoticed, AllSettled;
    RunTells(c, layouts, start, t);
  }

  lemma {:induction false} KeylessAre(layouts: seq<Layout>, computer: string)
    ensures computer in KeylessSets(layouts) <==> exists l :: l in layouts && l.mac.None? && l.computer == computer
    decreases |layouts|
  {
    if layouts != [] {
      var (rest, l) := (layouts[..|layouts| - 1], layouts[|layouts| - 1]);
      assert layouts == rest + [l];
      KeylessAre(rest, computer);
    }
  }

  function KeylessSets(layouts: seq<Layout>): seq<string> {
    if layouts == [] then []
    else KeylessSets(layouts[..|layouts| - 1]) + if layouts[|layouts| - 1].mac.None?
        then [layouts[|layouts| - 1].computer] else []
  }

  /** The families of one set. */
  method RunLayout(r: Auditor, c: Config, l: Layout, ghost done: seq<Job>, ghost all: seq<Job>, ghost start: Totals,
      ghost largest: nat)
    returns (abort: Option<Abort>)
    requires l.mac.Some? && done + JobsOf(c, l) <= all && AllWithin(all, largest)
    requires Progress(c, start, done, r.State(), largest)
    modifies r
    ensures abort.None? ==> Progress(c, start, done + JobsOf(c, l), r.State(), largest)
    ensures abort.Some? ==>
        Partial(c, start, all, r.State(), largest) && Justified(abort.value, r.bytesRead, c.maxBytes, c.timed)
    ensures abort.Some? ==> !abort.value.KeysetFailed?
  {
    hide Fold, Accounted, Grows, ReadWithin, Justified, Progress, Partial, AllWithin, JobOf;
    ghost var jobs := JobsOf(c, l);
    assert done + jobs[..0] == done;
    var k := 0;
    while k < |OBJECT_FAMILIES|
      invariant 0 <= k <= |OBJECT_FAMILIES|
      invariant Progress(c, start, done + jobs[..k], r.State(), largest)
    {
      var j := JobOf(c, l, OBJECT_FAMILIES[k]);
      assert j == jobs[k];
      assert done + jobs[..k + 1] == (done + jobs[..k]) + [j];
      assert done + jobs[..k + 1] <= done + jobs <= all;
      ghost var before := r.State();
      JobFits(c, l, OBJECT_FAMILIES[k]);
      JobMayRun(c, start, done + jobs[..k], all, j, before, largest);
      abort := RunJob(r, j, c.timed, largest);
      if abort.Some? {
        CutOff(c, start, done + jobs[..k], all, j, before, r.State(), largest);
        NotKeyset(abort.value, r.bytesRead, j.maxBytes, c.timed);
        return;
      }
      OneJobMore(c, start, done + jobs[..k], j, before, r.State(), largest);
      k := k + 1;
    }
    assert done + jobs[..k] == done + jobs;
    abort := None;
  }

  lemma NotKeyset(abort: Abort, bytesRead: nat, maxBytes: Option<nat>, timed: bool)
    requires Justified(abort, bytesRead, maxBytes, timed)
    ensures !abort.KeysetFailed?
  {}

  lemma JobFits(c: Config, l: Layout, kind: string)
    requires l.mac.Some?
    ensures var j := JobOf(c, l, kind); j.workers == Workers(c) && j.maxBytes == c.maxBytes
  {}

  lemma JobMayRun(c: Config, start: Totals, done: seq<Job>, all: seq<Job>, j: Job, t: Totals, largest: nat)
    requires Progress(c, start, done, t, largest) && AllWithin(all, largest) && done + [j] <= all
    requires j.workers == Workers(c) && j.maxBytes == c.maxBytes
    ensures Accounted(t) && BodiesWithin(j.s, j.items, largest)
        && ReadWithin(t.bytesRead, j.maxBytes, Slack(j.workers, largest))
  {
    assert all[|done|] == (done + [j])[|done|] == j;
  }

  lemma GrowsFurther(done: seq<Job>, more: seq<Job>, j: Job, before: Option<set<string>>, mid: Option<set<string>>,
      after: Option<set<string>>)
    requires Grows(done, before, mid) && LedgerGrows(j.s, j.items, mid, after) && done + [j] <= more
    ensures Grows(more, before, after)
  {
    hide Verified;
    assert more[|done|] == (done + [j])[|done|] == j;
    if before.Some? {
      forall n | n in after.value - before.value ensures VerifiedName(more, n) {
        if n in mid.value {
          assert n in mid.value - before.value && VerifiedName(done, n);
          var j', i :| j' in done && i in j'.items && i.name == n && Verified(j'.s, i);
          var x :| 0 <= x < |done| && done[x] == j';
          assert more[x] == (done + [j])[x];
        } else {
          assert n in after.value - mid.value;
          var i :| i in j.items && i.name == n && Verified(j.s, i);
          assert j in more;
        }
      }
    }
  }

  lemma OneJobMore(c: Config, start: Totals, done: seq<Job>, j: Job, t: Totals, t': Totals, largest: nat)
    requires Progress(c, start, done, t, largest) && j.workers == Workers(c) && j.maxBytes == c.maxBytes
    requires Accounted(t') && LedgerGrows(j.s, j.items, t.ledger, t'.ledger)
    requires ReadWithin(t'.bytesRead, j.maxBytes, Slack(j.workers, largest))
    requires j.workers == 1 ==> t' == Fold(j.s, t, j.items)
    requires t.ledger.None? || DistinctNames(j.items) ==> Unordered(t') == Unordered(Fold(j.s, t, j.items))
    requires Onward(t, t') && Truthful(j.s, j.items, t.failures, t'.failures)
    requires t'.total == t.total + |j.items| && forall x :: x in j.items ==> Settled(j.s, t', x)
    ensures Progress(c, start, done + [j], t', largest)
  {
    hide Fold, Accounted, ReadWithin, LedgerGrows, DistinctNames, Unordered, Truthful, Settled, AllTrue, AllSettled,
         Grows;
    OnwardOn(start, t, t');
    TrueOn(done, j, start.failures, t.failures, t'.failures);
    SettledOn(done, j, t, t');
    var more := done + [j];
    assert more[..|more| - 1] == done;
    GrowsFurther(done, more, j, start.ledger, t.ledger, t'.ledger);
    if start.ledger.None? || AllDistinct(more) {
      DistinctBefore(done, j);
      FoldUnordered(j.s, t, FoldJobs(start, done), j.items);
    }
  }

  lemma DistinctBefore(done: seq<Job>, j: Job)
    ensures AllDistinct(done + [j]) ==> AllDistinct(done) && DistinctNames(j.items)
  {
    if AllDistinct(done + [j]) {
      assert j in done + [j];
      assert forall x :: x in done ==> x in done + [j];
    }
  }

  lemma CutOff(c: Config, start: Totals, done: seq<Job>, all: seq<Job>, j: Job, t: Totals, t': Totals, largest: nat)
    requires Progress(c, start, done, t, largest) && done + [j] <= all && j.workers == Workers(c)
        && j.maxBytes == c.maxBytes
    requires Accounted(t') && LedgerGrows(j.s, j.items, t.ledger, t'.ledger)
    requires ReadWithin(t'.bytesRead, j.maxBytes, Slack(j.workers, largest))
    requires Onward(t, t') && Truthful(j.s, j.items, t.failures, t'.failures)
    ensures Partial(c, start, all, t', largest)
  {
    hide Fold, Accounted, ReadWithin, LedgerGrows, Unordered, FoldJobs, Truthful, AllTrue, AllSettled, Onward, Grows;
    GrowsFurther(done, all, j, start.ledger, t.ledger, t'.ledger);
    OnwardOn(start, t, t');
    TrueOn(done, j, start.failures, t.failures, t'.failures);
    TrueOfMore(done + [j], all, start.failures, t'.failures);
  }

  lemma OnwardOn(a: Totals, b: Totals, c: Totals)
    requires Onward(a, b) && Onward(b, c)
    ensures Onward(a, c)
  {}

  lemma TrueOn(done: seq<Job>, j: Job, before: seq<Failure>, mid: seq<Failure>, after: seq<Failure>)
    requires AllTrue(done, before, mid) && Truthful(j.s, j.items, mid, after)
    ensures AllTrue(done + [j], before, after)
  {
    hide Because, InSomeJob;
    forall s, x ensures InSomeJob(done + [j], s, x) <==> InSomeJob(done, s, x) || (s == j.s && x in j.items) {
      LastJob(done, j, s, x);
    }
  }

  lemma LastJob(done: seq<Job>, j: Job, s: Setting, x: Item)
    ensures InSomeJob(done + [j], s, x) <==> InSomeJob(done, s, x) || (s == j.s && x in j.items)
  {
    assert j in done + [j];
  }

  lemma TrueOfMore(jobs: seq<Job>, more: seq<Job>, before: seq<Failure>, after: seq<Failure>)
    requires AllTrue(jobs, before, after) && jobs <= more
    ensures AllTrue(more, before, after)
  {
    hide Because;
    assert forall j :: j in jobs ==> j in more;
    forall s, x | InSomeJob(jobs, s, x) ensures InSomeJob(more, s, x) {}
    hide InSomeJob;
  }

  lemma SettledOn(done: seq<Job>, j: Job, t: Totals, t': Totals)
    requires AllSettled(done, t) && Onward(t, t') && forall x :: x in j.items ==> Settled(j.s, t', x)
    ensures AllSettled(done + [j], t')
    ensures SizeOf(done + [j]) == SizeOf(done) + |j.items|
  {
    hide Settled, Onward, InSomeJob;
    assert (done + [j])[..|done|] == done;
    forall s, x | InSomeJob(done + [j], s, x) ensures Settled(s, t', x) {
      LastJob(done, j, s, x);
      if InSomeJob(done, s, x) {
        StaysSettled(s, t, t', x);
      }
    }
  }

  lemma ProgressIsPartial(c: Config, start: Totals, all: seq<Job>, t: Totals, largest: nat)
    requires Progress(c, start, all, t, largest)
    ensures Partial(c, start, all, t, largest)
  {}

  lemma NothingDone(c: Config, start: Totals, layouts: seq<Layout>, largest: nat)
    requires Accounted(start) && start.bytesRead == 0
    ensures Progress(c, start, AllJobs(c, layouts[..0]), start, largest) && AllJobs(c, layouts[..0]) == []
  {}

  lemma LayoutStep(c: Config, layouts: seq<Layout>, n: nat)
    requires n < |layouts|
    ensures AllJobs(c, layouts[..n + 1]) == AllJobs(c, layouts[..n]) + JobsOf(c, layouts[n])
    ensures KeylessSets(layouts[..n + 1]) == KeylessSets(layouts[..n]) + if layouts[n].mac.None?
        then [layouts[n].computer] else []
    ensures AllJobs(c, layouts[..n + 1]) <= AllJobs(c, layouts)
    ensures layouts[n].mac.None? ==> AllJobs(c, layouts[..n + 1]) == AllJobs(c, layouts[..n])
    ensures layouts[n].mac.Some? ==> AllJobs(c, layouts[..n + 1]) != []
  {
    assert layouts[..n + 1][..n] == layouts[..n];
    JobsPrefix(c, layouts, n + 1);
  }

  lemma {:induction false} JobsPrefix(c: Config, layouts: seq<Layout>, n: nat)
    requires n <= |layouts|
    ensures AllJobs(c, layouts[..n]) <= AllJobs(c, layouts)
    decreases |layouts| - n
  {
    hide JobsOf;
    if n < |layouts| {
      JobsPrefix(c, layouts, n + 1);
      assert layouts[..n + 1][..n] == layouts[..n];
    } else {
      assert layouts[..n] == layouts;
    }
  }
}
