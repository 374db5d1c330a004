/** One family's audit: the sequential driver as a fold, the parallel one as a machine of feeds and completions. */
module Schedule {
  import opened Wrappers
  import opened AuditCore

  /** The work of one driver call. At most 2 * workers files are in flight. */
  datatype Job = Job(s: Setting, items: seq<Item>, workers: nat, maxBytes: Option<nat>)

  predicate BudgetLeft(j: Job, t: Totals) {
    j.maxBytes.Some? ==> t.bytesRead < j.maxBytes.value
  }

  /* ---- Sequentially ---- */

  function Step(s: Setting, t: Totals, item: Item): Totals {
    if InLedger(t, item) then SkipByLedger(t) else Finalize(t, Compute(s, item))
  }

  /** The sequential driver over `items`. */
  function Fold(s: Setting, t: Totals, items: seq<Item>): Totals {
    if items == [] then t else Step(s, Fold(s, t, items[..|items| - 1]), items[|items| - 1])
  }

  /* ---- In parallel ---- */

  /**
   Files taken from the list so far, whether the next one has passed the ledger check, files submitted
   but not merged, and the merged totals.
  */
  datatype Pool = Pool(fed: nat, passed: bool, inFlight: seq<Item>, t: Totals)

  /** The driver looks the next file up in the ledger, submits it, or merges the k-th of the files in flight. */
  datatype Event = Check | Submit | Complete(k: nat)

  predicate Enabled(j: Job, p: Pool, e: Event) {
    match e
    case Check => !p.passed && p.fed < |j.items| && BudgetLeft(j, p.t)
    case Submit => p.passed && p.fed < |j.items| && BudgetLeft(j, p.t) && |p.inFlight| < 2 * j.workers
    case Complete(k) => k < |p.inFlight|
  }

  function Without(inFlight: seq<Item>, k: nat): seq<Item>
    requires k < |inFlight|
  {
    inFlight[..k] + inFlight[k + 1..]
  }

  function Next(j: Job, p: Pool, e: Event): Pool
    requires Enabled(j, p, e)
  {
    match e
    case Check =>
      if InLedger(p.t, j.items[p.fed]) then p.(fed := p.fed + 1, t := SkipByLedger(p.t)) else p.(passed := true)
    case Submit => p.(fed := p.fed + 1, passed := false, inFlight := p.inFlight + [j.items[p.fed]])
    case Complete(k) => p.(inFlight := Without(p.inFlight, k), t := Finalize(p.t, Compute(j.s, p.inFlight[k])))
  }

  /** Where a schedule leads, if each of its events is possible in turn. */
  function Exec(j: Job, start: Totals, trace: seq<Event>): Option<Pool> {
    if trace == [] then Some(Pool(0, false, [], start))
    else
      match Exec(j, start, trace[..|trace| - 1])
      case None => None
      case Some(p) => if Enabled(j, p, trace[|trace| - 1]) then Some(Next(j, p, trace[|trace| - 1])) else None
  }

  lemma ExecStep(j: Job, start: Totals, trace: seq<Event>, e: Event)
    requires var p := Exec(j, start, trace); p.Some? && Enabled(j, p.value, e)
    ensures Exec(j, start, trace + [e]) == Some(Next(j, Exec(j, start, trace).value, e))
  {
    assert (trace + [e])[..|trace|] == trace;
  }

  ghost predicate Finished(j: Job, start: Totals, trace: seq<Event>) {
    var p := Exec(j, start, trace);
    p.Some? && p.value.fed == |j.items| && p.value.inFlight == []
  }

  /* ---- Totals up to the order of failures ---- */

  datatype Tally = Tally(counts: Totals, failures: multiset<Failure>)

  ghost function Unordered(t: Totals): Tally {
    Tally(t.(failures := []), multiset(t.failures))
  }

  ghost function Plus(u: Tally, d: Delta): Tally {
    Tally(Finalize(u.counts, d).(failures := []), u.failures + multiset(d.failures))
  }

  ghost function Skip(u: Tally): Tally {
    u.(counts := SkipByLedger(u.counts))
  }

  lemma Homomorphic(t: Totals, d: Delta)
    ensures Unordered(Finalize(t, d)) == Plus(Unordered(t), d)
    ensures Unordered(SkipByLedger(t)) == Skip(Unordered(t))
  {}

  lemma PlusCommutes(u: Tally, d: Delta, e: Delta)
    ensures Plus(Plus(u, d), e) == Plus(Plus(u, e), d)
    ensures Skip(Plus(u, d)) == Plus(Skip(u), d)
  {
    var (a, b) := (Plus(Plus(u, d), e), Plus(Plus(u, e), d));
    assert a.failures == b.failures;
    assert Recorded(Recorded(u.counts.ledger, d.verified), e.verified)
        == Recorded(Recorded(u.counts.ledger, e.verified), d.verified) by {
      RecordedCommutes(u.counts.ledger, d.verified, e.verified);
    }
  }

  lemma RecordedCommutes(ledger: Option<set<string>>, a: Option<string>, b: Option<string>)
    ensures Recorded(Recorded(ledger, a), b) == Recorded(Recorded(ledger, b), a)
  {
    if ledger.Some? && a.Some? && b.Some? {
      assert ledger.value + {a.value} + {b.value} == ledger.value + {b.value} + {a.value};
    }
  }

  /** The totals once everything in flight is merged. */
  ghost function Pending(s: Setting, inFlight: seq<Item>, u: Tally): Tally {
    if inFlight == [] then u
    else Plus(Pending(s, inFlight[..|inFlight| - 1], u), Compute(s, inFlight[|inFlight| - 1]))
  }

  lemma {:induction false} PendingPlus(s: Setting, inFlight: seq<Item>, u: Tally, d: Delta)
    ensures Pending(s, inFlight, Plus(u, d)) == Plus(Pending(s, inFlight, u), d)
    ensures Pending(s, inFlight, Skip(u)) == Skip(Pending(s, inFlight, u))
    decreases |inFlight|
  {
    hide Plus, Skip, Compute;
    if inFlight != [] {
      var (rest, x) := (inFlight[..|inFlight| - 1], inFlight[|inFlight| - 1]);
      PendingPlus(s, rest, u, d);
      PlusCommutes(Pending(s, rest, u), d, Compute(s, x));
      PlusCommutes(Pending(s, rest, u), Compute(s, x), d);
    }
  }

  /** Merging any one of the files in flight leaves what is pending unchanged. */
  lemma {:induction false} PendingWithout(s: Setting, inFlight: seq<Item>, k: nat, u: Tally)
    requires k < |inFlight|
    ensures Pending(s, Without(inFlight, k), Plus(u, Compute(s, inFlight[k]))) == Pending(s, inFlight, u)
    decreases |inFlight|
  {
    hide Plus, Skip, Compute;
    var n := |inFlight| - 1;
    var rest := inFlight[..n];
    if k == n {
      assert Without(inFlight, k) == rest;
      PendingPlus(s, rest, u, Compute(s, inFlight[k]));
    } else {
      var w := Without(inFlight, k);
      assert w[..|w| - 1] == Without(rest, k) && w[|w| - 1] == inFlight[n];
      PendingWithout(s, rest, k, u);
    }
  }

  lemma {:induction false} PendingLedger(s: Setting, inFlight: seq<Item>, u: Tally)
    ensures var l := Pending(s, inFlight, u).counts.ledger;
            (l.Some? <==> u.counts.ledger.Some?) && (l.Some? ==> u.counts.ledger.value <= l.value)
    decreases |inFlight|
  {
    hide Compute;
    if inFlight != [] {
      PendingLedger(s, inFlight[..|inFlight| - 1], u);
    }
  }

  /* ---- When the schedule matters ---- */

  /** A file whose name an earlier verified file of the same list bears, and which the ledger does not hold yet. */
  ghost predicate Repeats(j: Job, start: Totals, a: nat, b: nat) {
    && a < b < |j.items| && start.ledger.Some? && j.items[a].name == j.items[b].name
    && !InLedger(start, j.items[a]) && Verified(j.s, j.items[a])
  }

  ghost predicate Clash(j: Job, start: Totals) {
    exists a: nat, b: nat :: Repeats(j, start, a, b)
  }

  ghost predicate ClashBefore(j: Job, start: Totals, n: nat) {
    exists a: nat, b: nat :: Repeats(j, start, a, b) && b < n
  }

  /** What every schedule keeps: merging all that is in flight would give the sequential totals so far. */
  ghost predicate OnCourse(j: Job, start: Totals, p: Pool) {
    && p.fed <= |j.items|
    && Pending(j.s, p.inFlight, Unordered(p.t)) == Unordered(Fold(j.s, start, j.items[..p.fed]))
    && (start.ledger.Some? <==> p.t.ledger.Some?)
    && (start.ledger.Some? ==> start.ledger.value <= p.t.ledger.value)
    && (p.passed ==> p.fed < |j.items| && !InLedger(start, j.items[p.fed]))
  }

  lemma FoldStep(s: Setting, t: Totals, items: seq<Item>, n: nat)
    requires n < |items|
    ensures Fold(s, t, items[..n + 1]) == Step(s, Fold(s, t, items[..n]), items[n])
  {
    assert items[..n + 1][..n] == items[..n];
  }

  /** How many of the files are in a class. */
  ghost function ClassCount(s: Setting, items: seq<Item>, c: Class): nat {
    if items == [] then 0
    else ClassCount(s, items[..|items| - 1], c) + if Is(s, items[|items| - 1], c) then 1 else 0
  }

  /** The bytes read of these files, the objects in them, and those that fail. */
  ghost function BytesOf(s: Setting, items: seq<Item>): nat {
    if items == [] then 0 else BytesOf(s, items[..|items| - 1]) + BodyBytes(s, items[|items| - 1])
  }

  ghost function ObjectsOf(s: Setting, items: seq<Item>): nat {
    if items == [] then 0 else ObjectsOf(s, items[..|items| - 1]) + ObjectsIn(s, items[|items| - 1])
  }

  ghost function BadObjectsOf(s: Setting, items: seq<Item>): nat {
    if items == [] then 0 else BadObjectsOf(s, items[..|items| - 1]) + BadObjectsIn(s, items[|items| - 1])
  }

  /**
   With no ledger, every file is counted once, in its class, with its bytes and its objects; every corrupt or
   unreadable file is reported with the reason, and every new failure is such a report.
  */
  lemma {:induction false} FoldMeaning(s: Setting, t: Totals, items: seq<Item>)
    requires t.ledger.None?
    ensures var u := Fold(s, t, items);
            && u.ledger.None? && u.total == t.total + |items| && u.ledgerSkipped == t.ledgerSkipped
            && u.ok == t.ok + ClassCount(s, items, Sound) && u.fail == t.fail + ClassCount(s, items, Corrupt)
            && u.error == t.error + ClassCount(s, items, Unreadable)
            && u.skipped == t.skipped + ClassCount(s, items, TooLarge)
            && u.bytesRead == t.bytesRead + BytesOf(s, items) && u.innerTotal == t.innerTotal + ObjectsOf(s, items)
            && u.innerFail == t.innerFail + BadObjectsOf(s, items)
            && u.innerOk == t.innerOk + ObjectsOf(s, items) - BadObjectsOf(s, items)
            && t.failures <= u.failures && Truthful(s, items, t.failures, u.failures)
            && forall x :: x in items && (Is(s, x, Corrupt) || Is(s, x, Unreadable)) ==> Reported(u.failures, s, x)
    decreases |items|
  {
    hide Compute, Is, Because, Truthful, BodyBytes, ObjectsIn, BadObjectsIn;
    FoldSettles(s, t, items);
    if items != [] {
      var (rest, x) := (items[..|items| - 1], items[|items| - 1]);
      FoldMeaning(s, t, rest);
      Classified(s, x);
    }
    forall x | x in items && (Is(s, x, Corrupt) || Is(s, x, Unreadable))
      ensures Reported(Fold(s, t, items).failures, s, x)
    {
      OneClass(s, x);
      assert Settled(s, Fold(s, t, items), x);
    }
  }

  /** The sequential driver leaves no file unsettled, and reports nothing untrue. */
  lemma {:induction false} FoldSettles(s: Setting, t: Totals, items: seq<Item>)
    ensures var u := Fold(s, t, items);
            && Onward(t, u) && (forall x :: x in items ==> Settled(s, u, x))
            && Truthful(s, items, t.failures, u.failures)
    decreases |items|
  {
    hide Compute, Settled, Truthful, Finalize;
    if items == [] {
      NothingUntrue(s, t);
    } else {
      var (rest, last) := (items[..|items| - 1], items[|items| - 1]);
      assert items == rest + [last];
      var (u, v) := (Fold(s, t, rest), Fold(s, t, items));
      FoldSettles(s, t, rest);
      AuditSettles(s, u, last);
      MoreTruthful(s, rest, items, t.failures, u.failures);
      AuditTruthful(s, items, t.failures, u, last);
      forall x | x in items ensures Settled(s, v, x) {
        if x in rest {
          StaysSettled(s, u, v, x);
        }
      }
    }
  }

  lemma NothingUntrue(s: Setting, t: Totals)
    ensures Onward(t, t) && forall items :: Truthful(s, items, t.failures, t.failures)
  {}

  lemma MoreTruthful(s: Setting, items: seq<Item>, more: seq<Item>, before: seq<Failure>, after: seq<Failure>)
    requires Truthful(s, items, before, after) && forall x :: x in items ==> x in more
    ensures Truthful(s, more, before, after)
  {}

  /** What the sequential driver adds to the ledger. */
  lemma {:induction false} FoldLedger(j: Job, start: Totals, n: nat)
    requires n <= |j.items|
    ensures var l := Fold(j.s, start, j.items[..n]).ledger;
            && (l.Some? <==> start.ledger.Some?)
            && (l.Some? ==> forall m :: m in l.value <==>
                  m in start.ledger.value
                  || exists a :: 0 <= a < n && j.items[a].name == m && Verified(j.s, j.items[a]))
  {
    hide Compute, Verified;
    if n > 0 {
      FoldLedger(j, start, n - 1);
      FoldStep(j.s, start, j.items, n - 1);
      Classified(j.s, j.items[n - 1]);
      hide Fold;
    }
  }

  /** A file that the ledger lacked at the start is met again by the sequential driver only where names clash. */
  lemma SameDecision(j: Job, start: Totals, n: nat)
    requires n < |j.items| && !InLedger(start, j.items[n])
    ensures InLedger(Fold(j.s, start, j.items[..n]), j.items[n]) ==> ClashBefore(j, start, n + 1)
  {
    hide Verified, Compute, Fold;
    FoldLedger(j, start, n);
    if InLedger(Fold(j.s, start, j.items[..n]), j.items[n]) {
      var a :| 0 <= a < n && j.items[a].name == j.items[n].name && Verified(j.s, j.items[a]);
      assert Repeats(j, start, a, n);
    }
  }

  lemma CheckKeepsCourse(j: Job, start: Totals, p: Pool)
    requires OnCourse(j, start, p) && Enabled(j, p, Check)
    ensures OnCourse(j, start, Next(j, p, Check))
  {
    hide Compute, Fold, Finalize;
    var x := j.items[p.fed];
    if InLedger(p.t, x) {
      var before := Fold(j.s, start, j.items[..p.fed]);
      PendingLedger(j.s, p.inFlight, Unordered(p.t));
      assert before.ledger == Unordered(before).counts.ledger;
      FoldStep(j.s, start, j.items, p.fed);
      Homomorphic(before, ONE_FILE);
      Homomorphic(p.t, ONE_FILE);
      PendingPlus(j.s, p.inFlight, Unordered(p.t), ONE_FILE);
      hide Pending, Unordered;
    }
  }

  lemma SubmitKeepsCourse(j: Job, start: Totals, p: Pool)
    requires OnCourse(j, start, p) && !ClashBefore(j, start, p.fed + 1) && Enabled(j, p, Submit)
    ensures OnCourse(j, start, Next(j, p, Submit))
  {
    hide ClashBefore, Compute, Fold, Finalize, Unordered, Plus;
    var x := j.items[p.fed];
    var before := Fold(j.s, start, j.items[..p.fed]);
    SameDecision(j, start, p.fed);
    FoldStep(j.s, start, j.items, p.fed);
    Homomorphic(before, Compute(j.s, x));
    var more := p.inFlight + [x];
    assert more[..|more| - 1] == p.inFlight;
  }

  lemma CompleteKeepsCourse(j: Job, start: Totals, p: Pool, k: nat)
    requires OnCourse(j, start, p) && Enabled(j, p, Complete(k))
    ensures OnCourse(j, start, Next(j, p, Complete(k)))
  {
    hide Compute, Fold;
    var d := Compute(j.s, p.inFlight[k]);
    Homomorphic(p.t, d);
    PendingWithout(j.s, p.inFlight, k, Unordered(p.t));
    hide Pending, Unordered, Plus;
  }

  /** Main result: every schedule stays on course as long as no clash is among the files taken so far. */
  lemma {:induction false} StaysOnCourse(j: Job, start: Totals, trace: seq<Event>)
    requires Exec(j, start, trace).Some? && !ClashBefore(j, start, Exec(j, start, trace).value.fed)
    ensures OnCourse(j, start, Exec(j, start, trace).value)
    decreases |trace|
  {
    hide OnCourse, ClashBefore, Next;
    if trace == [] {
      AtStart(j, start);
    } else {
      var (before, e) := (trace[..|trace| - 1], trace[|trace| - 1]);
      var p := Exec(j, start, before).value;
      FedGrows(j, p, e);
      ClashLater(j, start, p.fed, Next(j, p, e).fed);
      StaysOnCourse(j, start, before);
      match e
      case Check => CheckKeepsCourse(j, start, p);
      case Submit => SubmitKeepsCourse(j, start, p);
      case Complete(k) => CompleteKeepsCourse(j, start, p, k);
    }
  }

  lemma FedGrows(j: Job, p: Pool, e: Event)
    requires Enabled(j, p, e)
    ensures p.fed <= Next(j, p, e).fed && (e.Submit? ==> Next(j, p, e).fed == p.fed + 1)
  {
    hide Compute, Finalize;
  }

  lemma ClashLater(j: Job, start: Totals, n: nat, m: nat)
    requires n <= m
    ensures ClashBefore(j, start, n) ==> ClashBefore(j, start, m) && Clash(j, start)
  {
    hide Repeats;
  }

  lemma AtStart(j: Job, start: Totals)
    ensures OnCourse(j, start, Pool(0, false, [], start))
  {
    assert j.items[..0] == [];
  }

  lemma ParallelEqualsSequential(j: Job, start: Totals, trace: seq<Event>)
    requires Finished(j, start, trace) && !Clash(j, start)
    ensures Unordered(Exec(j, start, trace).value.t) == Unordered(Fold(j.s, start, j.items))
  {
    hide Clash, ClashBefore, Exec;
    ClashLater(j, start, |j.items|, |j.items|);
    StaysOnCourse(j, start, trace);
    assert j.items[..|j.items|] == j.items;
  }

  /* ---- What holds after any schedule, finished or cut off ---- */

  /** The ledger gains names of verified files only, and loses none. */
  ghost predicate LedgerGrows(s: Setting, items: seq<Item>, before: Option<set<string>>, after: Option<set<string>>) {
    && (before.Some? <==> after.Some?)
    && (before.Some? ==>
          && before.value <= after.value
          && forall n :: n in after.value - before.value ==> exists i :: i in items && i.name == n && Verified(s, i))
  }

  ghost predicate Sane(j: Job, start: Totals, p: Pool) {
    && |p.inFlight| <= 2 * j.workers && p.fed <= |j.items| && Accounted(p.t)
    && LedgerGrows(j.s, j.items, start.ledger, p.t.ledger)
    && forall y :: y in p.inFlight ==> y in j.items
  }

  lemma {:induction false} AlwaysSane(j: Job, start: Totals, trace: seq<Event>)
    requires Accounted(start) && Exec(j, start, trace).Some?
    ensures Sane(j, start, Exec(j, start, trace).value)
    decreases |trace|
  {
    if trace != [] {
      hide Sane, Next, Enabled;
      var (before, e) := (trace[..|trace| - 1], trace[|trace| - 1]);
      AlwaysSane(j, start, before);
      NextSane(j, start, Exec(j, start, before).value, e);
    }
  }

  lemma NextSane(j: Job, start: Totals, p: Pool, e: Event)
    requires Sane(j, start, p) && Enabled(j, p, e)
    ensures Sane(j, start, Next(j, p, e))
  {
    hide Compute, Verified, Accounted, LedgerGrows;
    match e
    case Check => KeepsAccounted(j.s, p.t, j.items[p.fed]);
    case Submit =>
    case Complete(k) =>
      KeepsAccounted(j.s, p.t, p.inFlight[k]);
      GrowOne(j.s, j.items, start.ledger, p.t, p.inFlight[k]);
  }

  lemma GrowOne(s: Setting, items: seq<Item>, before: Option<set<string>>, t: Totals, item: Item)
    requires LedgerGrows(s, items, before, t.ledger) && item in items
    ensures LedgerGrows(s, items, before, Finalize(t, Compute(s, item)).ledger)
  {
    hide Compute, Verified, Merge;
    Classified(s, item);
    var after := Finalize(t, Compute(s, item)).ledger;
    if before.Some? {
      forall n | n in after.value - before.value ensures exists i :: i in items && i.name == n && Verified(s, i) {
        if n in t.ledger.value {
          assert n in t.ledger.value - before.value;
        } else {
          assert item in items && item.name == n && Verified(s, item);
        }
      }
    }
  }

  /** The same for the sequential driver, however far it gets. */
  lemma {:induction false} FoldSane(j: Job, start: Totals, n: nat)
    requires n <= |j.items| && Accounted(start)
    ensures var t := Fold(j.s, start, j.items[..n]); Accounted(t) && LedgerGrows(j.s, j.items, start.ledger, t.ledger)
  {
    if n > 0 {
      FoldSane(j, start, n - 1);
      FoldStep(j.s, start, j.items, n - 1);
      var t := Fold(j.s, start, j.items[..n - 1]);
      hide Fold, Compute, Verified, Accounted, LedgerGrows, Finalize;
      KeepsAccounted(j.s, t, j.items[n - 1]);
      GrowOne(j.s, j.items, start.ledger, t, j.items[n - 1]);
      assert Accounted(Finalize(t, Compute(j.s, j.items[n - 1])));
    }
  }

  /** Every file taken is in flight or settled, and nothing untrue is reported. */
  ghost predicate NothingSilent(j: Job, start: Totals, p: Pool) {
    && p.fed <= |j.items| && Onward(start, p.t) && Truthful(j.s, j.items, start.failures, p.t.failures)
    && (forall x :: x in p.inFlight ==> x in j.items) && p.t.total + |p.inFlight| == start.total + p.fed
    && forall i :: 0 <= i < p.fed ==> j.items[i] in p.inFlight || Settled(j.s, p.t, j.items[i])
  }

  /** Main result on corruption: whatever the schedule, no file passes unnoticed. */
  lemma {:induction false} NeverSilent(j: Job, start: Totals, trace: seq<Event>)
    requires Exec(j, start, trace).Some?
    ensures NothingSilent(j, start, Exec(j, start, trace).value)
    decreases |trace|
  {
    if trace == [] {
      NothingUntrue(j.s, start);
    } else {
      hide NothingSilent, Next, Enabled;
      var (before, e) := (trace[..|trace| - 1], trace[|trace| - 1]);
      NeverSilent(j, start, before);
      NextSilent(j, start, Exec(j, start, before).value, e);
    }
  }

  lemma NextSilent(j: Job, start: Totals, p: Pool, e: Event)
    requires NothingSilent(j, start, p) && Enabled(j, p, e)
    ensures NothingSilent(j, start, Next(j, p, e))
  {
    hide Compute, Settled, Truthful, Finalize, SkipByLedger;
    var q := Next(j, p, e);
    match e
    case Check =>
      AuditSettles(j.s, p.t, j.items[p.fed]);
      SkipKeepsFailures(p.t);
      CountsOne(j.s, p.t, j.items[p.fed]);
      forall i | 0 <= i < p.fed && Settled(j.s, p.t, j.items[i]) ensures Settled(j.s, SkipByLedger(p.t), j.items[i]) {
        StaysSettled(j.s, p.t, SkipByLedger(p.t), j.items[i]);
      }
    case Submit =>
      forall i | 0 <= i < q.fed ensures j.items[i] in q.inFlight || Settled(j.s, q.t, j.items[i]) {
        assert q.inFlight[|p.inFlight|] == j.items[p.fed];
      }
    case Complete(k) =>
      var x := p.inFlight[k];
      AuditSettles(j.s, p.t, x);
      CountsOne(j.s, p.t, x);
      AuditTruthful(j.s, j.items, start.failures, p.t, x);
      assert p.inFlight == p.inFlight[..k] + [x] + p.inFlight[k + 1..];
      forall i | 0 <= i < q.fed ensures j.items[i] in q.inFlight || Settled(j.s, q.t, j.items[i]) {
        if Settled(j.s, p.t, j.items[i]) {
          StaysSettled(j.s, p.t, q.t, j.items[i]);
        }
      }
  }

  lemma CountsOne(s: Setting, t: Totals, item: Item)
    ensures Finalize(t, Compute(s, item)).total == t.total + 1 == SkipByLedger(t).total
  {
    hide Compute;
    Classified(s, item);
  }

  lemma {:induction false} FoldTotal(s: Setting, t: Totals, items: seq<Item>)
    ensures Fold(s, t, items).total == t.total + |items|
    decreases |items|
  {
    hide Finalize, SkipByLedger, Compute;
    if items != [] {
      FoldTotal(s, t, items[..|items| - 1]);
      CountsOne(s, Fold(s, t, items[..|items| - 1]), items[|items| - 1]);
    }
  }

  lemma SkipKeepsFailures(t: Totals)
    ensures SkipByLedger(t).failures == t.failures
  {}

  /** No body of the list is longer than `largest`. */
  ghost predicate BodiesWithin(s: Setting, items: seq<Item>, largest: nat) {
    forall i :: i in items ==> Compute(s, i).bytesRead <= largest
  }

  /** What is read stays below the budget plus `slack`; or nothing is read at all. */
  predicate ReadWithin(bytesRead: nat, maxBytes: Option<nat>, slack: nat) {
    maxBytes.Some? ==> bytesRead == 0 || bytesRead < maxBytes.value + slack
  }

  ghost predicate WithinBudget(j: Job, largest: nat, p: Pool) {
    && ReadWithin(Pending(j.s, p.inFlight, Unordered(p.t)).counts.bytesRead, j.maxBytes, 2 * j.workers * largest)
    && |p.inFlight| <= 2 * j.workers && forall y :: y in p.inFlight ==> y in j.items
  }

  /** The parallel driver's overshoot: everything in flight may still be read after the budget is met. */
  lemma {:induction false} OvershootBound(j: Job, start: Totals, trace: seq<Event>, largest: nat)
    requires BodiesWithin(j.s, j.items, largest) && ReadWithin(start.bytesRead, j.maxBytes, 2 * j.workers * largest)
    requires Exec(j, start, trace).Some?
    ensures WithinBudget(j, largest, Exec(j, start, trace).value)
    decreases |trace|
  {
    if trace != [] {
      hide WithinBudget, Next, Enabled, BodiesWithin, ReadWithin;
      var (before, e) := (trace[..|trace| - 1], trace[|trace| - 1]);
      OvershootBound(j, start, before, largest);
      NextWithinBudget(j, largest, Exec(j, start, before).value, e);
    }
  }

  lemma NextWithinBudget(j: Job, largest: nat, p: Pool, e: Event)
    requires BodiesWithin(j.s, j.items, largest) && WithinBudget(j, largest, p) && Enabled(j, p, e)
    ensures WithinBudget(j, largest, Next(j, p, e))
  {
    hide Compute, Pending, Finalize;
    var u := Unordered(p.t);
    match e
    case Check =>
      Homomorphic(p.t, ONE_FILE);
      PendingPlus(j.s, p.inFlight, u, ONE_FILE);
    case Submit =>
      var more := p.inFlight + [j.items[p.fed]];
      PendingBytes(j.s, more, u, largest);
      Times(|more|, 2 * j.workers, largest);
    case Complete(k) =>
      Homomorphic(p.t, Compute(j.s, p.inFlight[k]));
      PendingWithout(j.s, p.inFlight, k, u);
  }

  /** The sequential driver's overshoot: one file. */
  lemma SequentialOvershoot(j: Job, start: Totals, done: nat, largest: nat)
    requires done <= |j.items| && BodiesWithin(j.s, j.items, largest)
        && ReadWithin(start.bytesRead, j.maxBytes, largest)
    requires done > 0 ==> BudgetLeft(j, Fold(j.s, start, j.items[..done - 1]))
    ensures ReadWithin(Fold(j.s, start, j.items[..done]).bytesRead, j.maxBytes, largest)
  {
    hide Compute;
    if done > 0 {
      FoldStep(j.s, start, j.items, done - 1);
      hide Fold;
      assert j.items[done - 1] in j.items;
    }
  }

  lemma Times(a: nat, b: nat, c: nat)
    requires a <= b
    ensures a * c <= b * c
  {}

  lemma {:induction false} PendingBytes(s: Setting, inFlight: seq<Item>, u: Tally, largest: nat)
    requires BodiesWithin(s, inFlight, largest)
    ensures u.counts.bytesRead <= Pending(s, inFlight, u).counts.bytesRead <= u.counts.bytesRead + |inFlight| * largest
    decreases |inFlight|
  {
    hide Compute;
    if inFlight != [] {
      var (rest, x) := (inFlight[..|inFlight| - 1], inFlight[|inFlight| - 1]);
      assert x in inFlight;
      PendingBytes(s, rest, u, largest);
      OneMore(|rest|, largest);
      hide Pending;
    }
  }

  lemma OneMore(n: nat, c: nat)
    ensures (n + 1) * c == n * c + c
  {}

  /* ---- A clash can show ---- */

  /** Every name the ledger gained is that of a verified file in the list. */
  lemma {:induction false} FoldAdds(s: Setting, t: Totals, items: seq<Item>)
    ensures var l := Fold(s, t, items).ledger;
            && (l.Some? <==> t.ledger.Some?)
            && (l.Some? ==> forall m :: m in l.value ==>
                  m in t.ledger.value || exists c :: 0 <= c < |items| && items[c].name == m && Verified(s, items[c]))
    decreases |items|
  {
    hide Compute, Verified;
    if items != [] {
      FoldAdds(s, t, items[..|items| - 1]);
      Classified(s, items[|items| - 1]);
    }
  }

  lemma RunOne(j: Job, start: Totals, trace: seq<Event>, held: seq<Item>, n: nat, t: Totals)
    returns (longer: seq<Event>)
    requires Exec(j, start, trace) == Some(Pool(n, false, held, t)) && n < |j.items|
    requires |held| < 2 * j.workers && j.maxBytes.None?
    ensures Exec(j, start, longer) == Some(Pool(n + 1, false, held, Step(j.s, t, j.items[n])))
  {
    hide Exec, Compute, Finalize, SkipByLedger;
    var x := j.items[n];
    ExecStep(j, start, trace, Check);
    longer := trace + [Check];
    if !InLedger(t, x) {
      ExecStep(j, start, longer, Submit);
      longer := longer + [Submit];
      assert Without(held + [x], |held|) == held;
      ExecStep(j, start, longer, Complete(|held|));
      longer := longer + [Complete(|held|)];
    }
  }

  /** The driver takes the files up to n one at a time, merging each at once, while `held` stays in flight. */
  lemma {:induction false} RunOn(j: Job, start: Totals, trace: seq<Event>, held: seq<Item>, from: nat, n: nat,
      t: Totals)
    returns (longer: seq<Event>)
    requires Exec(j, start, trace) == Some(Pool(from, false, held, t)) && from <= n <= |j.items|
    requires |held| < 2 * j.workers && j.maxBytes.None?
    ensures Exec(j, start, longer) == Some(Pool(n, false, held, Fold(j.s, t, j.items[from..n])))
    decreases n - from
  {
    hide Exec, Fold, Step;
    longer := trace;
    FoldFrom(j.s, t, j.items, from, n);
    if from < n {
      longer := RunOn(j, start, trace, held, from, n - 1, t);
      longer := RunOne(j, start, longer, held, n - 1, Fold(j.s, t, j.items[from..n - 1]));
    }
  }

  lemma FoldFrom(s: Setting, t: Totals, items: seq<Item>, from: nat, n: nat)
    requires from <= n <= |items|
    ensures Fold(s, t, items[from..n]) == if from == n then t else Step(s, Fold(s, t, items[from..n - 1]), items[n - 1])
  {
    hide Step;
    if from < n {
      assert items[from..n][..n - 1 - from] == items[from..n - 1];
    }
  }

  /** Totals that differ in nothing the ledger sees go on to differ by the same number of skipped files. */
  lemma {:induction false} FoldShift(s: Setting, t: Totals, u: Totals, items: seq<Item>)
    requires t.ledger == u.ledger
    ensures var (a, b) := (Fold(s, t, items), Fold(s, u, items));
            a.ledger == b.ledger && a.ledgerSkipped - t.ledgerSkipped == b.ledgerSkipped - u.ledgerSkipped
    decreases |items|
  {
    hide Compute;
    if items != [] {
      FoldShift(s, t, u, items[..|items| - 1]);
    }
  }

  lemma {:induction false} FoldSplit(s: Setting, t: Totals, items: seq<Item>, n: nat)
    requires n <= |items|
    ensures Fold(s, t, items) == Fold(s, Fold(s, t, items[..n]), items[n..])
    decreases |items|
  {
    hide Step;
    if n == |items| {
      assert items[..n] == items;
    } else {
      var m := |items| - 1;
      FoldSplit(s, t, items[..m], n);
      assert items[..m][..n] == items[..n] && items[..m][n..] == items[n..][..m - n];
    }
  }

  /** The first clash: no earlier file repeats a verified one. */
  ghost predicate FirstClash(j: Job, start: Totals, a: nat, b: nat) {
    Repeats(j, start, a, b) && !ClashBefore(j, start, b)
  }

  lemma {:induction false} FindFirst(j: Job, start: Totals, a: nat, b: nat) returns (c: nat, d: nat)
    requires Repeats(j, start, a, b)
    ensures FirstClash(j, start, c, d)
    decreases b
  {
    hide Repeats;
    c, d := a, b;
    if ClashBefore(j, start, b) {
      var a': nat, b': nat :| Repeats(j, start, a', b') && b' < b;
      c, d := FindFirst(j, start, a', b');
    }
  }

  lemma RepeatsEitherWay(j: Job, start: Totals, a: nat, b: nat, c: nat)
    requires Repeats(j, start, a, b) && c < b && c != a && j.items[c].name == j.items[a].name
        && Verified(j.s, j.items[c])
    ensures ClashBefore(j, start, b)
  {
    hide Verified;
    assert Repeats(j, start, if a < c then a else c, if a < c then c else a);
  }

  /** Before the first clash, no file but a bears the name and is verified. */
  lemma OnlyOne(j: Job, start: Totals, a: nat, b: nat, c: nat)
    requires FirstClash(j, start, a, b) && c < b && c != a && j.items[c].name == j.items[a].name
    ensures !Verified(j.s, j.items[c])
  {
    hide Verified, ClashBefore;
    if Verified(j.s, j.items[c]) {
      RepeatsEitherWay(j, start, a, b, c);
    }
  }

  /** With a held back, neither a nor b is in the ledger when its turn comes. */
  lemma NotYetInLedger(j: Job, start: Totals, a: nat, b: nat)
    requires FirstClash(j, start, a, b)
    ensures a < b < |j.items|
    ensures var t := Fold(j.s, start, j.items[..a]);
            !InLedger(t, j.items[a]) && !InLedger(Fold(j.s, t, j.items[a + 1..b]), j.items[b])
  {
    hide Verified, Fold, FirstClash;
    FirstRepeats(j, start, a, b);
    var t := Fold(j.s, start, j.items[..a]);
    FoldAdds(j.s, start, j.items[..a]);
    if InLedger(t, j.items[a]) {
      var c :| 0 <= c < a && j.items[c].name == j.items[a].name && Verified(j.s, j.items[c]);
      OnlyOne(j, start, a, b, c);
    }
    FoldAdds(j.s, t, j.items[a + 1..b]);
    if InLedger(Fold(j.s, t, j.items[a + 1..b]), j.items[b]) {
      var c :| a < c < b && j.items[c].name == j.items[a].name && Verified(j.s, j.items[c]) by {
        var k :| 0 <= k < b - a - 1 && j.items[a + 1..b][k].name == j.items[b].name
            && Verified(j.s, j.items[a + 1..b][k]);
        assert j.items[a + 1 + k] == j.items[a + 1..b][k];
      }
      OnlyOne(j, start, a, b, c);
    }
  }

  lemma FirstRepeats(j: Job, start: Totals, a: nat, b: nat)
    requires FirstClash(j, start, a, b)
    ensures Repeats(j, start, a, b) && !ClashBefore(j, start, b)
  {}

  lemma RepeatIsSkipped(j: Job, start: Totals, a: nat, b: nat)
    requires Repeats(j, start, a, b)
    ensures InLedger(Fold(j.s, start, j.items[..b]), j.items[b]) && !InLedger(start, j.items[b])
  {
    hide Verified, Fold;
    FoldLedger(j, start, b);
  }

  /** A schedule that keeps a in flight until b has passed the ledger check. */
  lemma HoldBack(j: Job, start: Totals, a: nat, b: nat) returns (trace: seq<Event>, t: Totals)
    requires FirstClash(j, start, a, b) && j.workers >= 1 && j.maxBytes.None?
    ensures Exec(j, start, trace) == Some(Pool(b, true, [j.items[a]], t))
  {
    FirstRepeats(j, start, a, b);
    assert Exec(j, start, []) == Some(Pool(0, false, [], start));
    hide Exec, Fold, FirstClash, Repeats, Verified;
    NotYetInLedger(j, start, a, b);
    trace := RunOn(j, start, [], [], 0, a, start);
    assert j.items[0..a] == j.items[..a];
    t := Fold(j.s, start, j.items[..a]);
    ExecStep(j, start, trace, Check);
    trace := trace + [Check];
    ExecStep(j, start, trace, Submit);
    trace := trace + [Submit];
    assert [] + [j.items[a]] == [j.items[a]];
    trace := RunOn(j, start, trace, [j.items[a]], a + 1, b, t);
    t := Fold(j.s, t, j.items[a + 1..b]);
    ExecStep(j, start, trace, Check);
    trace := trace + [Check];
  }

  /** The schedule audits b, which the sequential driver skips, and drains. */
  lemma AuditsTheRepeat(j: Job, start: Totals, a: nat, b: nat) returns (trace: seq<Event>, t: Totals)
    requires FirstClash(j, start, a, b) && j.workers >= 1 && j.maxBytes.None?
    ensures Exec(j, start, trace) == Some(Pool(b + 1, false, [], t))
    ensures var u := Fold(j.s, start, j.items[..b + 1]);
            t.ledger == u.ledger && t.ledgerSkipped + 1 == u.ledgerSkipped
  {
    var t0: Totals;
    trace, t0 := HoldBack(j, start, a, b);
    FirstRepeats(j, start, a, b);
    hide Exec, Fold, FirstClash, Repeats, Verified, Compute, ClashBefore;
    RepeatIsSkipped(j, start, a, b);
    StaysOnCourse(j, start, trace);
    var (x, y, before) := (j.items[a], j.items[b], Fold(j.s, start, j.items[..b]));
    OneHeld(j, start, b, x, t0);
    ExecStep(j, start, trace, Submit);
    trace := trace + [Submit];
    assert Without([x, y], 0) == [y] && Without([y], 0) == [];
    ExecStep(j, start, trace, Complete(0));
    trace := trace + [Complete(0)];
    ExecStep(j, start, trace, Complete(0));
    trace := trace + [Complete(0)];
    t := Finalize(Finalize(t0, Compute(j.s, x)), Compute(j.s, y));
    FoldStep(j.s, start, j.items, b);
    LedgerOnly(j.s, before, y);
    LedgerOnly(j.s, Finalize(t0, Compute(j.s, x)), y);
  }

  /** With one file in flight, merging it gives the sequential ledger and skips. */
  lemma OneHeld(j: Job, start: Totals, n: nat, x: Item, t: Totals)
    requires OnCourse(j, start, Pool(n, true, [x], t))
    ensures var (u, v) := (Finalize(t, Compute(j.s, x)), Fold(j.s, start, j.items[..n]));
            u.ledger == v.ledger && u.ledgerSkipped == v.ledgerSkipped
  {
    hide Compute, Fold, Finalize;
    Homomorphic(t, Compute(j.s, x));
    assert [x][..0] == [];
    hide Plus;
    var (u, v) := (Finalize(t, Compute(j.s, x)), Fold(j.s, start, j.items[..n]));
    assert Pending(j.s, [], Unordered(t)) == Unordered(t);
    assert Pending(j.s, [x], Unordered(t)) == Unordered(u) == Unordered(v);
    assert Unordered(u).counts.ledger == Unordered(v).counts.ledger;
  }

  /** Auditing a file whose name the ledger holds leaves the ledger and the skips alone. */
  lemma LedgerOnly(s: Setting, t: Totals, y: Item)
    requires InLedger(t, y)
    ensures var u := Finalize(t, Compute(s, y)); u.ledger == t.ledger && u.ledgerSkipped == t.ledgerSkipped
    ensures SkipByLedger(t).ledger == t.ledger && SkipByLedger(t).ledgerSkipped == t.ledgerSkipped + 1
  {
    hide Compute, Verified;
    Classified(s, y);
    if Compute(s, y).verified.Some? {
      assert t.ledger.value + {y.name} == t.ledger.value;
    }
  }

  lemma ClashShows(j: Job, start: Totals) returns (trace: seq<Event>)
    requires Clash(j, start) && j.workers >= 1 && j.maxBytes.None?
    ensures Finished(j, start, trace)
    ensures Exec(j, start, trace).value.t.ledgerSkipped < Fold(j.s, start, j.items).ledgerSkipped
  {
    var a: nat, b: nat :| Repeats(j, start, a, b);
    a, b := FindFirst(j, start, a, b);
    FirstRepeats(j, start, a, b);
    var t: Totals;
    trace, t := AuditsTheRepeat(j, start, a, b);
    hide Exec, Fold, FirstClash, Verified, Compute;
    var n := |j.items|;
    trace := RunOn(j, start, trace, [], b + 1, n, t);
    assert j.items[b + 1..n] == j.items[b + 1..];
    FoldShift(j.s, t, Fold(j.s, start, j.items[..b + 1]), j.items[b + 1..]);
    FoldSplit(j.s, start, j.items, b + 1);
  }

  /**
   With at least one worker and no byte budget, every schedule of every list ends with the sequential totals (counters,
   failures as a multiset, ledger) if and only if no file repeats the name of an earlier verified one that the ledger
   lacks.
  */
  lemma ParallelAgreesIff(j: Job, start: Totals)
    requires j.workers >= 1 && j.maxBytes.None?
    ensures (forall trace :: Finished(j, start, trace) ==>
               Unordered(Exec(j, start, trace).value.t) == Unordered(Fold(j.s, start, j.items)))
       <==> !Clash(j, start)
  {
    hide Exec, Fold, Clash;
    if Clash(j, start) {
      var trace := ClashShows(j, start);
      assert Unordered(Exec(j, start, trace).value.t).counts.ledgerSkipped < Unordered(Fold(j.s, start,
          j.items)).counts.ledgerSkipped;
    } else {
      forall trace | Finished(j, start, trace)
        ensures Unordered(Exec(j, start, trace).value.t) == Unordered(Fold(j.s, start, j.items))
      {
        ParallelEqualsSequential(j, start, trace);
      }
    }
  }

  ghost predicate DistinctNames(items: seq<Item>) {
    forall a, b :: 0 <= a < b < |items| ==> items[a].name != items[b].name
  }

  /** The sequential driver does not look at the order of failures so far. */
  lemma {:induction false} FoldUnordered(s: Setting, t: Totals, t': Totals, items: seq<Item>)
    requires Unordered(t) == Unordered(t')
    ensures Unordered(Fold(s, t, items)) == Unordered(Fold(s, t', items))
    decreases |items|
  {
    hide Compute, Finalize;
    if items != [] {
      var (rest, x) := (items[..|items| - 1], items[|items| - 1]);
      FoldUnordered(s, t, t', rest);
      var (a, b) := (Fold(s, t, rest), Fold(s, t', rest));
      assert a.ledger == Unordered(a).counts.ledger == Unordered(b).counts.ledger == b.ledger;
      Homomorphic(a, Compute(s, x));
      Homomorphic(b, Compute(s, x));
      hide Unordered;
    }
  }

  /** Pairwise distinct names, or no ledger, rule a clash out whatever is verified. */
  lemma DistinctNamesNeverClash(j: Job, start: Totals)
    requires start.ledger.None? || DistinctNames(j.items)
    ensures !Clash(j, start)
  {}
}
