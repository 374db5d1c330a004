/** Auditing one file, and merging its outcome into the running totals. */
module AuditCore {
  import opened Wrappers
  import opened Bytes
  import opened Arqo

  datatype Item = Item(computer: string, family: string, shard: string, name: string)

  /** What the backend answers for one path: stat_size may raise, and so may read_all after it. */
  datatype Answer = NoStat | Stat(size: nat, body: Option<bytes>)

  /** The fixed surroundings of an audit: the backend, one backup set's HMAC key, and the size cap. */
  datatype Setting = Setting(backend: Item -> Answer, mac: Mac, cap: Option<nat>)

  datatype Why = StatFailed | FetchFailed | ShortRead(expected: nat, got: nat) | NoMagic | BadHmac(bad: nat, total: nat,
      first: nat)
  datatype Failure = Failure(item: Item, why: Why)

  /** _AuditDelta */
  datatype Delta = Delta(total: nat, ok: nat, fail: nat, error: nat, skipped: nat, bytesRead: nat, innerTotal: nat,
      innerOk: nat, innerFail: nat, failures: seq<Failure>, verified: Option<string>)

  const ONE_FILE := Delta(1, 0, 0, 0, 0, 0, 0, 0, 0, [], None)

  /** The bad magics of a body, by the key. */
  function Bad(mac: Mac, body: bytes): seq<nat> {
    Failing(mac, body, Positions(body), |Positions(body)|)
  }

  /** The outcome of auditing `item`. */
  function Compute(s: Setting, item: Item): Delta {
    match s.backend(item)
    case NoStat => ONE_FILE.(error := 1, failures := [Failure(item, StatFailed)])
    case Stat(size, body) =>
      if s.cap.Some? && size > s.cap.value then ONE_FILE.(skipped := 1)
      else
        match body
        case None => ONE_FILE.(error := 1, failures := [Failure(item, FetchFailed)])
        case Some(b) => Judge(s.mac, item, size, b)
  }

  function Judge(mac: Mac, item: Item, size: nat, body: bytes): (delta: Delta)
    ensures delta.total == 1 && delta.bytesRead == |body|
  {
    var d := ONE_FILE.(bytesRead := |body|);
    if |body| != size then d.(error := 1, failures := [Failure(item, ShortRead(size, |body|))])
    else if !(ARQO_MAGIC <= body) then d.(fail := 1, failures := [Failure(item, NoMagic)])
    else
      var (all, bad) := (|Positions(body)|, Bad(mac, body));
      var counted := d.(innerTotal := all, innerOk := all - |bad|, innerFail := |bad|);
      if bad == [] then counted.(ok := 1, verified := Some(item.name))
      else counted.(fail := 1, failures := [Failure(item, BadHmac(|bad|, all, bad[0]))])
  }

  /**
   The file was read whole, is within the cap, starts with the magic, and every magic in it heads an authentic object.
  */
  ghost predicate Verified(s: Setting, item: Item) {
    var a := s.backend(item);
    && a.Stat? && a.body.Some? && (s.cap.None? || a.size <= s.cap.value)
    && |a.body.value| == a.size && ARQO_MAGIC <= a.body.value
    && forall i :: 0 <= i < |Positions(a.body.value)| ==>
         InnerOk(s.mac, a.body.value, Positions(a.body.value)[i], EndOf(a.body.value, Positions(a.body.value), i))
  }

  /** The file can be looked up and is not above the cap. */
  ghost predicate WithinCap(s: Setting, item: Item) {
    s.backend(item).Stat? && (s.cap.None? || s.backend(item).size <= s.cap.value)
  }

  /** As many bytes as announced are read. */
  ghost predicate ReadWhole(s: Setting, item: Item) {
    var a := s.backend(item);
    WithinCap(s, item) && a.body.Some? && |a.body.value| == a.size
  }

  /** What a file can be, from what the backend answers, the cap and the key alone. */
  datatype Class = Sound | Corrupt | Unreadable | TooLarge

  ghost predicate Is(s: Setting, item: Item, c: Class) {
    match c
    case Sound => Verified(s, item)
    case Corrupt => ReadWhole(s, item) && !Verified(s, item)
    case Unreadable => s.backend(item).NoStat? || (WithinCap(s, item) && !ReadWhole(s, item))
    case TooLarge => s.backend(item).Stat? && !WithinCap(s, item)
  }

  /** The reason a failure gives is what the backend's answer shows. */
  ghost predicate Because(s: Setting, item: Item, why: Why) {
    var a := s.backend(item);
    match why
    case StatFailed => a.NoStat?
    case FetchFailed => WithinCap(s, item) && a.body.None?
    case ShortRead(expected, got) =>
      WithinCap(s, item) && a.body.Some? && expected == a.size && got == |a.body.value| && got != expected
    case NoMagic => ReadWhole(s, item) && !(ARQO_MAGIC <= a.body.value)
    case BadHmac(bad, total, first) =>
      && ReadWhole(s, item) && ARQO_MAGIC <= a.body.value
      && var (body, ps) := (a.body.value, Positions(a.body.value));
         total == |ps| && bad == |FailingPlaces(s.mac, body, ps, total)| && FirstFails(s.mac, body, ps, total, first)
  }

  /** The bytes read of the file, the objects in it, and those of them that fail. */
  ghost function BodyBytes(s: Setting, item: Item): nat {
    if WithinCap(s, item) && s.backend(item).body.Some? then |s.backend(item).body.value| else 0
  }

  ghost function ObjectsIn(s: Setting, item: Item): nat {
    if ReadWhole(s, item) && ARQO_MAGIC <= s.backend(item).body.value
    then |Positions(s.backend(item).body.value)|
    else 0
  }

  ghost function BadObjectsIn(s: Setting, item: Item): nat {
    if ReadWhole(s, item) && ARQO_MAGIC <= s.backend(item).body.value
    then
      var body := s.backend(item).body.value;
      |FailingPlaces(s.mac, body, Positions(body), |Positions(body)|)|
    else 0
  }

  /**
   Every file is counted in exactly the class it is in: sound, corrupt, unreadable, or above the cap. A corrupt or
   unreadable one is reported, with the reason; a sound one is recorded as verified.
  */
  lemma Classified(s: Setting, item: Item)
    ensures var d := Compute(s, item);
            && d.total == 1 && d.ok + d.fail + d.error + d.skipped == 1
            && |d.failures| == d.fail + d.error && (forall f :: f in d.failures ==> f.item == item)
            && d.innerTotal == d.innerOk + d.innerFail
            && (d.ok == 1 <==> Is(s, item, Sound)) && (d.fail == 1 <==> Is(s, item, Corrupt))
            && (d.error == 1 <==> Is(s, item, Unreadable)) && (d.skipped == 1 <==> Is(s, item, TooLarge))
            && (forall f :: f in d.failures ==> Because(s, item, f.why))
            && d.verified == if Verified(s, item) then Some(item.name) else None
    ensures var d := Compute(s, item);
            && d.bytesRead == BodyBytes(s, item) && d.innerTotal == ObjectsIn(s, item)
            && d.innerFail == BadObjectsIn(s, item)
  {
    hide Compute, Is, Because, Verified, BodyBytes, ObjectsIn, BadObjectsIn;
    Counts(s, item);
    Reasons(s, item);
    Measures(s, item);
  }

  lemma Counts(s: Setting, item: Item)
    ensures var d := Compute(s, item);
            && d.total == 1 && d.ok + d.fail + d.error + d.skipped == 1
            && (d.ok == 1 <==> Is(s, item, Sound)) && (d.fail == 1 <==> Is(s, item, Corrupt))
            && (d.error == 1 <==> Is(s, item, Unreadable)) && (d.skipped == 1 <==> Is(s, item, TooLarge))
            && d.verified == if Verified(s, item) then Some(item.name) else None
  {
    hide Positions, InnerOk, FailingPlaces, FirstFails;
    if ReadWhole(s, item) && ARQO_MAGIC <= s.backend(item).body.value {
      WholeJudged(s.mac, item, s.backend(item).body.value);
      hide Judge;
    }
  }

  lemma Reasons(s: Setting, item: Item)
    ensures var d := Compute(s, item);
            && |d.failures| == d.fail + d.error <= 1
            && (d.failures != [] ==> d.failures[0].item == item && Because(s, item, d.failures[0].why))
  {
    hide Positions, InnerOk, FailingPlaces, FirstFails, EndOf, Bad;
    if ReadWhole(s, item) && ARQO_MAGIC <= s.backend(item).body.value {
      WholeJudged(s.mac, item, s.backend(item).body.value);
      hide Judge;
    }
  }

  lemma Measures(s: Setting, item: Item)
    ensures var d := Compute(s, item);
            && d.innerTotal == d.innerOk + d.innerFail && d.bytesRead == BodyBytes(s, item)
            && d.innerTotal == ObjectsIn(s, item) && d.innerFail == BadObjectsIn(s, item)
  {
    hide Positions, InnerOk, FailingPlaces, FirstFails;
    if ReadWhole(s, item) && ARQO_MAGIC <= s.backend(item).body.value {
      WholeJudged(s.mac, item, s.backend(item).body.value);
    }
  }

  /** A body that starts with the magic is sound or corrupt by the objects in it. */
  lemma WholeJudged(mac: Mac, item: Item, body: bytes)
    requires ARQO_MAGIC <= body
    ensures var (d, ps) := (Judge(mac, item, |body|, body), Positions(body));
            && d.error == d.skipped == 0 && d.ok + d.fail == 1 && d.innerTotal == |ps| == d.innerOk + d.innerFail
            && d.innerFail == |FailingPlaces(mac, body, ps, |ps|)|
            && (d.ok == 1 <==> forall i :: 0 <= i < |ps| ==> InnerOk(mac, body, ps[i], EndOf(body, ps, i)))
            && (d.ok == 1 ==> d.failures == [] && d.verified == Some(item.name))
            && (d.fail == 1 ==> d.verified == None && |d.failures| == 1 && d.failures[0].item == item)
            && (d.fail == 1 ==> var why := d.failures[0].why;
                  && why.BadHmac? && why.total == |ps| && why.bad == |FailingPlaces(mac, body, ps, |ps|)|
                  && FirstFails(mac, body, ps, |ps|, why.first))
  {
    hide Positions, InnerOk, FailingPlaces, FirstFails;
    FailingMeans(mac, body, Positions(body), |Positions(body)|);
  }

  /** Some failure names the file, with the reason. */
  ghost predicate Reported(failures: seq<Failure>, s: Setting, item: Item) {
    exists why :: Failure(item, why) in failures && Because(s, item, why)
  }

  lemma CorruptReported(s: Setting, item: Item)
    requires Is(s, item, Corrupt) || Is(s, item, Unreadable)
    ensures Reported(Compute(s, item).failures, s, item)
  {
    hide Compute, Is, Because;
    Classified(s, item);
    var f := Compute(s, item).failures[0];
    assert f in Compute(s, item).failures && f == Failure(item, f.why);
  }

  lemma OneClass(s: Setting, item: Item)
    ensures Is(s, item, Sound) || Is(s, item, Corrupt) || Is(s, item, Unreadable) || Is(s, item, TooLarge)
    ensures forall c, c' :: Is(s, item, c) && Is(s, item, c') ==> c == c'
  {
    hide Positions, InnerOk;
  }

  /** _audit_one_file_compute: the worker. */
  method ComputeFile(s: Setting, item: Item) returns (d: Delta)
    ensures d == Compute(s, item)
  {
    hide Positions, Failing;
    d := ONE_FILE;
    var answer := s.backend(item);
    if answer.NoStat? {
      return d.(error := 1, failures := d.failures + [Failure(item, StatFailed)]);
    }
    if s.cap.Some? && answer.size > s.cap.value {
      return d.(skipped := 1);
    }
    if answer.body.None? {
      return d.(error := 1, failures := d.failures + [Failure(item, FetchFailed)]);
    }
    var body := answer.body.value;
    d := d.(bytesRead := |body|);
    if |body| != answer.size {
      return d.(error := 1, failures := d.failures + [Failure(item, ShortRead(answer.size, |body|))]);
    }
    if !(ARQO_MAGIC <= body) {
      return d.(fail := 1, failures := d.failures + [Failure(item, NoMagic)]);
    }
    var nOk, nFail, offsets := VerifyMulti(s.mac, body);
    d := d.(innerTotal := nOk + nFail, innerOk := nOk, innerFail := nFail);
    if nFail == 0 {
      return d.(ok := 1, verified := Some(item.name));
    }
    return d.(fail := 1, failures := d.failures + [Failure(item, BadHmac(nFail, nOk + nFail, offsets[0]))]);
  }

  /* ---- Running totals ---- */

  /** An ObjectAuditResult's counters and failures, with the ledger the drivers consult. */
  datatype Totals = Totals(total: nat, ok: nat, fail: nat, error: nat, skipped: nat, ledgerSkipped: nat, bytesRead: nat,
      innerTotal: nat, innerOk: nat, innerFail: nat, failures: seq<Failure>, ledger: Option<set<string>>)

  function Merge(t: Totals, d: Delta): Totals {
    t.(total := t.total + d.total, ok := t.ok + d.ok, fail := t.fail + d.fail, error := t.error + d.error,
       skipped := t.skipped + d.skipped, bytesRead := t.bytesRead + d.bytesRead,
       innerTotal := t.innerTotal + d.innerTotal, innerOk := t.innerOk + d.innerOk,
       innerFail := t.innerFail + d.innerFail,
       failures := t.failures + d.failures)
  }

  function Recorded(ledger: Option<set<string>>, name: Option<string>): Option<set<string>> {
    if ledger.Some? && name.Some? then Some(ledger.value + {name.value}) else ledger
  }

  /** _merge_and_finalize, its effect */
  function Finalize(t: Totals, d: Delta): Totals {
    Merge(t, d).(ledger := Recorded(t.ledger, d.verified))
  }

  function SkipByLedger(t: Totals): Totals {
    t.(total := t.total + 1, ledgerSkipped := t.ledgerSkipped + 1)
  }

  /** Every file counted is in exactly one class. */
  predicate Accounted(t: Totals) {
    && t.total == t.ok + t.fail + t.error + t.skipped + t.ledgerSkipped
    && |t.failures| == t.fail + t.error && t.innerTotal == t.innerOk + t.innerFail
  }

  lemma KeepsAccounted(s: Setting, t: Totals, item: Item)
    requires Accounted(t)
    ensures Accounted(Finalize(t, Compute(s, item))) && Accounted(Merge(t, Compute(s, item)))
        && Accounted(SkipByLedger(t))
  {
    hide Compute, Verified;
    Classified(s, item);
  }

  predicate InLedger(t: Totals, item: Item) {
    t.ledger.Some? && item.name in t.ledger.value
  }

  /** The file is sound, above the cap, passed over for the ledger, or reported. */
  ghost predicate Settled(s: Setting, t: Totals, item: Item) {
    Is(s, item, Sound) || Is(s, item, TooLarge) || InLedger(t, item) || Reported(t.failures, s, item)
  }

  /** Failures and ledger entries stay. */
  ghost predicate Onward(t: Totals, t': Totals) {
    && t.failures <= t'.failures && (t.ledger.Some? <==> t'.ledger.Some?)
    && (t.ledger.Some? ==> t.ledger.value <= t'.ledger.value)
  }

  lemma StaysSettled(s: Setting, t: Totals, t': Totals, item: Item)
    requires Settled(s, t, item) && Onward(t, t')
    ensures Settled(s, t', item)
  {
    hide Is, Because;
    if Reported(t.failures, s, item) {
      var why :| Failure(item, why) in t.failures && Because(s, item, why);
      assert Failure(item, why) in t'.failures;
    }
  }

  lemma AuditSettles(s: Setting, t: Totals, item: Item)
    ensures Settled(s, Finalize(t, Compute(s, item)), item) && Onward(t, Finalize(t, Compute(s, item)))
    ensures Onward(t, SkipByLedger(t)) && (InLedger(t, item) ==> Settled(s, SkipByLedger(t), item))
  {
    hide Is, Because, Compute;
    OneClass(s, item);
    if Is(s, item, Corrupt) || Is(s, item, Unreadable) {
      CorruptReported(s, item);
      var why :| Failure(item, why) in Compute(s, item).failures && Because(s, item, why);
      assert Failure(item, why) in t.failures + Compute(s, item).failures;
    }
  }

  /** Every new failure names one of these files, for what is wrong with it. */
  ghost predicate Truthful(s: Setting, items: seq<Item>, before: seq<Failure>, after: seq<Failure>) {
    forall f :: f in after ==> f in before || (f.item in items && Because(s, f.item, f.why))
  }

  lemma AuditTruthful(s: Setting, items: seq<Item>, before: seq<Failure>, t: Totals, item: Item)
    requires Truthful(s, items, before, t.failures) && item in items
    ensures Truthful(s, items, before, Finalize(t, Compute(s, item)).failures)
  {
    hide Because, Compute;
    Classified(s, item);
  }

  /** The shared result object and the ledger beside it. */
  class Auditor {
    var total: nat
    var ok: nat
    var fail: nat
    var error: nat
    var skipped: nat
    var ledgerSkipped: nat
    var bytesRead: nat
    var innerTotal: nat
    var innerOk: nat
    var innerFail: nat
    var failures: seq<Failure>
    var ledger: Option<set<string>>

    function State(): Totals
      reads this
    {
      Totals(total, ok, fail, error, skipped, ledgerSkipped, bytesRead, innerTotal, innerOk, innerFail, failures,
          ledger)
    }

    constructor (ledger: Option<set<string>>)
      ensures State() == Totals(0, 0, 0, 0, 0, 0, 0, 0, 0, 0, [], ledger)
    {
      total, ok, fail, error, skipped, ledgerSkipped, bytesRead := 0, 0, 0, 0, 0, 0, 0;
      innerTotal, innerOk, innerFail, failures := 0, 0, 0, [];
      this.ledger := ledger;
    }

    /** _merge_audit_delta */
    method MergeDelta(d: Delta)
      modifies this
      ensures State() == Merge(old(State()), d)
    {
      total, ok, fail, error, skipped, bytesRead, innerTotal, innerOk, innerFail, failures :=
        total + d.total, ok + d.ok, fail + d.fail, error + d.error, skipped + d.skipped, bytesRead + d.bytesRead,
        innerTotal + d.innerTotal, innerOk + d.innerOk, innerFail + d.innerFail, failures + d.failures;
    }

    /** _merge_and_finalize */
    method MergeAndFinalize(d: Delta)
      modifies this
      ensures State() == Finalize(old(State()), d)
    {
      MergeDelta(d);
      if d.verified.Some? && ledger.Some? {
        ledger := Some(ledger.value + {d.verified.value});
      }
    }

    method CountLedgerSkip()
      modifies this
      ensures State() == SkipByLedger(old(State()))
    {
      total, ledgerSkipped := total + 1, ledgerSkipped + 1;
    }

    /** _audit_one_file, which writes to the shared result as it goes: the same as computing a delta and merging it. */
    method AuditOneFile(s: Setting, item: Item)
      modifies this
      ensures State() == Merge(old(State()), Compute(s, item))
    {
      hide Judge;
      total := total + 1;
      var answer := s.backend(item);
      if answer.NoStat? {
        error, failures := error + 1, failures + [Failure(item, StatFailed)];
        return;
      }
      if s.cap.Some? && answer.size > s.cap.value {
        skipped := skipped + 1;
        return;
      }
      if answer.body.None? {
        error, failures := error + 1, failures + [Failure(item, FetchFailed)];
        return;
      }
      AuditBody(s.mac, item, answer.size, answer.body.value);
    }

    /** The part of _audit_one_file after a successful fetch. */
    method AuditBody(mac: Mac, item: Item, size: nat, body: bytes)
      modifies `ok, `fail, `error, `bytesRead, `innerTotal, `innerOk, `innerFail, `failures
      ensures State() == Merge(old(State()), Judge(mac, item, size, body).(total := 0))
    {
      hide Positions, Failing;
      bytesRead := bytesRead + |body|;
      if |body| != size {
        error, failures := error + 1, failures + [Failure(item, ShortRead(size, |body|))];
        return;
      }
      if !(ARQO_MAGIC <= body) {
        fail, failures := fail + 1, failures + [Failure(item, NoMagic)];
        return;
      }
      var nOk, nFail, offsets := VerifyMulti(mac, body);
      innerTotal, innerOk, innerFail := innerTotal + nOk + nFail, innerOk + nOk, innerFail + nFail;
      if nFail == 0 {
        ok := ok + 1;
      } else {
        fail, failures := fail + 1, failures + [Failure(item, BadHmac(nFail, nOk + nFail, offsets[0]))];
      }
    }
  }
}
