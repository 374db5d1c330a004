/** A run's events: the writer's ring buffer, the state file it is flushed to, and the consumer that polls the file. */
module EventTail {
  import opened Wrappers

  const EVENTS_TAIL_MAX: nat := 50

  datatype Event = Event(kind: string, payload: string)

  /** How many of the first m events are no longer in the tail. */
  function Base(m: nat): nat { if m <= EVENTS_TAIL_MAX then 0 else m - EVENTS_TAIL_MAX }

  function Held(m: nat): nat { if m <= EVENTS_TAIL_MAX then m else EVENTS_TAIL_MAX }

  /** deque(es, maxlen=50) */
  function Tail(es: seq<Event>): (t: seq<Event>)
    ensures |t| == Held(|es|)
  {
    es[Base(|es|)..]
  }

  /** The state file: the tail last flushed, if any; `written` is how many events there were then. */
  class StateFile {
    var tail: Option<seq<Event>>
    ghost var written: nat

    constructor ()
      ensures tail.None? && written == 0
    {
      tail, written := None, 0;
    }
  }

  /** RunWriter; `emitted` is every event there has been. */
  class RunWriter {
    const file: StateFile
    const flushEventCount: nat
    var events: seq<Event>
    var unflushed: nat
    ghost var emitted: seq<Event>

    /** The file holds the tail of some earlier moment, fewer than `flushEventCount` events ago. */
    ghost predicate Valid()
      reads this, file
    {
      && events == Tail(emitted) && file.written + unflushed == |emitted|
      && (unflushed == 0 || unflushed < flushEventCount)
      && match file.tail
         case None => file.written == 0
         case Some(t) => t == Tail(emitted[..file.written])
    }

    constructor (file: StateFile, flushEventCount: nat)
      requires file.tail.None? && file.written == 0
      ensures Valid() && this.file == file && this.flushEventCount == flushEventCount && emitted == []
    {
      this.file, this.flushEventCount := file, flushEventCount;
      events, unflushed, emitted := [], 0, [];
    }

    /** _force_flush */
    method Flush()
      requires events == Tail(emitted)
      modifies this`unflushed, file
      ensures Valid() && file.written == |emitted| && file.tail == Some(events)
    {
      assert emitted[..|emitted|] == emitted;
      file.tail, file.written, unflushed := Some(events), |emitted|, 0;
    }

    /** event; whether the flush interval has passed is the clock's choice. */
    method Emit(e: Event)
      requires Valid()
      modifies this, file
      ensures Valid() && emitted == old(emitted) + [e] && file.written >= old(file.written)
      ensures events == if |emitted| <= 50 then emitted else emitted[|emitted| - 50..]
    {
      TailOne(emitted, e);
      events := if |events| < EVENTS_TAIL_MAX then events + [e] else events[1..] + [e];
      emitted := emitted + [e];
      unflushed := unflushed + 1;
      var due: bool := *;
      if unflushed >= flushEventCount || due {
        Flush();
      } else {
        assert emitted[..file.written] == old(emitted)[..file.written];
      }
    }
  }

  lemma TailOne(es: seq<Event>, e: Event)
    ensures var t := Tail(es);
            Tail(es + [e]) == (if |t| < EVENTS_TAIL_MAX then t + [e] else t[1..] + [e])
  {}

  /** What the consumer has forwarded: which emitted events, by number, in the order posted. */
  ghost predicate Forwards(emitted: seq<Event>, forwarded: seq<Event>, numbers: seq<nat>) {
    && |numbers| == |forwarded|
    && (forall i :: 0 <= i < |numbers| ==> numbers[i] < |emitted| && forwarded[i] == emitted[numbers[i]])
    && forall i, j :: 0 <= i < j < |numbers| ==> numbers[i] < numbers[j]
  }

  /** The polling consumer of SubprocessBackupWorker; `seen` is the file's `written` when it last read it. */
  class Poller {
    const file: StateFile
    var lastEventIndex: nat
    var forwarded: seq<Event>
    ghost var numbers: seq<nat>
    ghost var seen: nat

    ghost predicate Valid(emitted: seq<Event>)
      reads this
    {
      && Forwards(emitted, forwarded, numbers) && seen <= |emitted|
      && lastEventIndex == |forwarded| == Held(seen)
      && forall i :: 0 <= i < |numbers| ==> i <= numbers[i] <= Base(seen) + i
    }

    constructor (file: StateFile)
      ensures Valid([]) && this.file == file && seen == 0 && forwarded == []
    {
      this.file := file;
      lastEventIndex, forwarded, numbers, seen := 0, [], [], 0;
    }

    /** _drain_state_file_once; a file that cannot be read or parsed is left for the next poll. */
    method Drain(ghost w: RunWriter, readable: bool)
      requires w.Valid() && w.file == file && Valid(w.emitted) && seen <= file.written
      modifies this
      ensures Valid(w.emitted) && old(forwarded) <= forwarded && seen <= file.written
      ensures readable && file.tail.Some? ==> seen == file.written
      ensures !readable ==> seen == old(seen) && forwarded == old(forwarded)
    {
      hide Forwards, Tail, Range;
      if !readable || file.tail.None? {
        return;
      }
      var events := file.tail.value;
      ghost var m := file.written;
      NewlySeen(w.emitted, forwarded, numbers, seen, m);
      if |events| <= lastEventIndex {
        NothingNew(forwarded, numbers, events, Base(m) + lastEventIndex, m);
      } else {
        forwarded := forwarded + events[lastEventIndex..];
        numbers := numbers + Range(Base(m) + lastEventIndex, m);
        lastEventIndex := |events|;
      }
      seen := m;
    }
  }

  lemma NothingNew(forwarded: seq<Event>, numbers: seq<nat>, events: seq<Event>, lo: nat, m: nat)
    requires lo == m
    ensures forwarded + events[|events|..] == forwarded && numbers + Range(lo, m) == numbers
  {}

  ghost function Range(lo: nat, hi: nat): (r: seq<nat>)
    requires lo <= hi
    ensures |r| == hi - lo && forall i :: 0 <= i < |r| ==> r[i] == lo + i
  {
    seq(hi - lo, i requires 0 <= i < hi - lo => lo + i)
  }

  /** The part of a newer tail past the last index holds events that come after all those forwarded. */
  lemma NewlySeen(emitted: seq<Event>, forwarded: seq<Event>, numbers: seq<nat>, seen: nat, m: nat)
    requires Forwards(emitted, forwarded, numbers) && seen <= m <= |emitted| && |forwarded| == Held(seen)
    requires forall i :: 0 <= i < |numbers| ==> i <= numbers[i] <= Base(seen) + i
    ensures Base(m) + Held(seen) <= m && Held(seen) <= Held(m)
    ensures var (f, n) := (forwarded + Tail(emitted[..m])[Held(seen)..], numbers + Range(Base(m) + Held(seen), m));
            && Forwards(emitted, f, n) && |f| == Held(m)
            && forall i :: 0 <= i < |n| ==> i <= n[i] <= Base(m) + i
  {
    var k := Held(seen);
    var (t, r) := (Tail(emitted[..m]), Range(Base(m) + k, m));
    forall i | k <= i < Held(m) ensures t[i] == emitted[Base(m) + i] && r[i - k] == Base(m) + i {}
    var (f, n) := (forwarded + t[k..], numbers + r);
    forall i | 0 <= i < |n| ensures n[i] < |emitted| && f[i] == emitted[n[i]] && i <= n[i] <= Base(m) + i {
      if i >= k {
        assert n[i] == Base(m) + i && f[i] == t[i];
      }
    }
  }

  /** Emitting more changes nothing about what has been forwarded. */
  lemma StillValid(p: Poller, emitted: seq<Event>, more: seq<Event>)
    requires p.Valid(emitted) && emitted <= more
    ensures p.Valid(more)
  {}

  /** One step of a run: the writer emits an event, or the consumer polls. */
  datatype Step = Emit(e: Event) | Poll(readable: bool)

  function EventsOf(steps: seq<Step>): seq<Event> {
    if steps == [] then []
    else EventsOf(steps[..|steps| - 1]) + match steps[|steps| - 1] case Emit(e) => [e] case Poll(_) => []
  }

  /**
   Any interleaving of events and polls, then the final flush and the final poll. The consumer has forwarded events in
   the order emitted, none twice, and all of them exactly when there were at most 50; otherwise just 50 of them.
  */
  method AnyRun(steps: seq<Step>, flushEventCount: nat) returns (forwarded: seq<Event>, ghost numbers: seq<nat>)
    ensures Forwards(EventsOf(steps), forwarded, numbers)
    ensures |forwarded| == if |EventsOf(steps)| <= 50 then |EventsOf(steps)| else 50
    ensures forwarded == EventsOf(steps) <==> |EventsOf(steps)| <= EVENTS_TAIL_MAX
  {
    hide Tail, Forwards;
    var file := new StateFile();
    var w := new RunWriter(file, flushEventCount);
    var p := new Poller(file);
    for k := 0 to |steps|
      invariant w.Valid() && w.file == p.file == file && p.Valid(w.emitted) && p.seen <= file.written
      invariant w.emitted == EventsOf(steps[..k]) && fresh(w) && fresh(p) && fresh(file)
    {
      assert steps[..k + 1][..k] == steps[..k];
      match steps[k]
      case Emit(e) =>
        ghost var before := w.emitted;
        w.Emit(e);
        StillValid(p, before, w.emitted);
      case Poll(readable) =>
        p.Drain(w, readable);
    }
    assert steps[..|steps|] == steps;
    w.Flush();
    p.Drain(w, true);
    forwarded, numbers := p.forwarded, p.numbers;
    AllForwarded(w.emitted, forwarded, numbers);
  }

  lemma AllForwarded(emitted: seq<Event>, forwarded: seq<Event>, numbers: seq<nat>)
    requires Forwards(emitted, forwarded, numbers) && |forwarded| == Held(|emitted|)
    requires forall i :: 0 <= i < |numbers| ==> i <= numbers[i] <= Base(|emitted|) + i
    ensures forwarded == emitted <==> |emitted| <= EVENTS_TAIL_MAX
  {
    if |emitted| <= EVENTS_TAIL_MAX {
      assert |forwarded| == |emitted| == |numbers| && Base(|emitted|) == 0;
      forall i | 0 <= i < |emitted| ensures forwarded[i] == emitted[i] {
        assert i <= numbers[i] <= i;
      }
    } else {
      assert |forwarded| != |emitted|;
    }
  }
}
