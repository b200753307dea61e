/** The bond-record observer: a bounded queue with conservation counters, and the
    scan that hands each vendor bond out once. */
module BondQueue {
  import opened Common
  import opened RingBuffer

  const CAPACITY: nat := 4

  datatype Identity = Identity(address: Bytes, addressType: byte)
  datatype SmpRecord = SmpRecord(identity: Identity, secret: Bytes)

  datatype Counters = Counters(received: u32, processed: u32, dropped: u32)
  datatype Queue = Queue(items: seq<SmpRecord>, counters: Counters)

  function Received(c: Counters): Counters { c.(received := Increment(c.received)) }
  function Processed(c: Counters): Counters { c.(processed := Increment(c.processed)) }
  function Dropped(c: Counters): Counters { c.(dropped := Increment(c.dropped)) }

  function PushSpec(q: Queue, record: SmpRecord): Queue {
    if |q.items| < CAPACITY then Queue(q.items + [record], Received(q.counters))
    else Queue(q.items, Dropped(Received(q.counters)))
  }

  function PopSpec(q: Queue): (Queue, Option<SmpRecord>) {
    if q.items == [] then (q, None) else (Queue(q.items[1..], Processed(q.counters)), Some(q.items[0]))
  }

  function Wrapped(items: seq<SmpRecord>): seq<Option<SmpRecord>> {
    seq(|items|, i requires 0 <= i < |items| => Some(items[i]))
  }

  class BleBondRecordQueue {
    const records: array<Option<SmpRecord>>
    var head: nat
    var len: nat
    var counters: Counters
    ghost var items: seq<SmpRecord>

    ghost predicate Valid()
      reads this, records
    {
      && records.Length == CAPACITY && head < CAPACITY && len == |items| <= CAPACITY
      && Window(records[..], head, len) == Wrapped(items)
    }

    ghost function View(): Queue
      reads this
    {
      Queue(items, counters)
    }

    constructor ()
      ensures Valid() && fresh(records) && View() == Queue([], Counters(0, 0, 0))
    {
      records := new Option<SmpRecord>[CAPACITY](_ => None);
      head, len, items, counters := 0, 0, [], Counters(0, 0, 0);
    }

    method Push(record: SmpRecord)
      requires Valid()
      modifies this, records
      ensures Valid() && View() == PushSpec(old(View()), record)
    {
      counters := Received(counters);
      if len == CAPACITY {
        counters := Dropped(counters);
        return;
      }
      var index := (head + len) % CAPACITY;
      Appends(records[..], head, len, Some(record));
      records[index] := Some(record);
      len := len + 1;
      items := items + [record];
    }

    method Pop() returns (record: Option<SmpRecord>)
      requires Valid()
      modifies this, records
      ensures Valid() && (View(), record) == PopSpec(old(View()))
    {
      if len == 0 {
        return None;
      }
      assert Window(records[..], head, len)[0] == Some(items[0]);
      record := records[head];
      Removes(records[..], head, len, None);
      records[head] := None;
      head := (head + 1) % CAPACITY;
      len := len - 1;
      items := items[1..];
      counters := Processed(counters);
    }
  }

  // ----- counters under interleaving -----

  /** One atomic action of a `push` or `pop`; a call is one of the sequences the
      in-flight counts below allow. */
  datatype Step = CountReceived | EnterRing(record: SmpRecord) | CountDropped | LeaveRing | CountProcessed

  /** `arriving` pushers counted themselves but did not reach the ring, `rejected`
      ones did not count their drop yet, `leaving` poppers did not count theirs. */
  datatype Sys = Sys(queue: Queue, arriving: nat, rejected: nat, leaving: nat,
                     accepted: seq<SmpRecord>, delivered: seq<SmpRecord>)

  function Next(s: Sys, step: Step): Sys {
    var q := s.queue;
    match step
    case CountReceived => s.(queue := q.(counters := Received(q.counters)), arriving := s.arriving + 1)
    case EnterRing(record) =>
      if s.arriving == 0 then s
      else if |q.items| < CAPACITY then
        s.(queue := q.(items := q.items + [record]), arriving := s.arriving - 1, accepted := s.accepted + [record])
      else s.(arriving := s.arriving - 1, rejected := s.rejected + 1)
    case CountDropped =>
      if s.rejected == 0 then s
      else s.(queue := q.(counters := Dropped(q.counters)), rejected := s.rejected - 1)
    case LeaveRing =>
      if q.items == [] then s
      else s.(queue := q.(items := q.items[1..]), leaving := s.leaving + 1, delivered := s.delivered + [q.items[0]])
    case CountProcessed =>
      if s.leaving == 0 then s
      else s.(queue := q.(counters := Processed(q.counters)), leaving := s.leaving - 1)
  }

  /** A push with nothing in between is its atomic actions in order: the ring takes the
      record or the drop is counted, and no call is left in flight that was not. */
  lemma PushIsItsSteps(s: Sys, record: SmpRecord)
    ensures var entered := Next(Next(s, CountReceived), EnterRing(record));
            var full := |s.queue.items| >= CAPACITY;
            (if full then Next(entered, CountDropped) else entered)
            == s.(queue := PushSpec(s.queue, record), accepted := if full then s.accepted else s.accepted + [record])
  {
  }

  /** A pop likewise: it delivers what the two actions take out and count. */
  lemma PopIsItsSteps(s: Sys)
    ensures var (q, record) := PopSpec(s.queue);
            && (record.None? <==> Next(s, LeaveRing) == s && s.queue.items == [])
            && (record.Some? ==>
                  Next(Next(s, LeaveRing), CountProcessed) == s.(queue := q, delivered := s.delivered + [record.value]))
            && (record.None? ==> q == s.queue)
  {
  }

  function Run(trace: seq<Step>): Sys {
    if trace == [] then Sys(Queue([], Counters(0, 0, 0)), 0, 0, 0, [], [])
    else Next(Run(trace[..|trace| - 1]), trace[|trace| - 1])
  }

  /** Where every received record is. */
  function Accounted(s: Sys): nat {
    s.queue.counters.processed + s.queue.counters.dropped + |s.queue.items| + s.arriving + s.rejected + s.leaving
  }

  ghost predicate Balanced(s: Sys) {
    exists k: int :: Accounted(s) == s.queue.counters.received + k * WORDS
  }

  ghost predicate Conserved(s: Sys) {
    && |s.queue.items| <= CAPACITY
    && s.accepted == s.delivered + s.queue.items
    && Balanced(s)
  }

  lemma IncrementWraps(n: u32)
    ensures Increment(n) == n + 1 || Increment(n) == n + 1 - WORDS
  {
  }

  lemma StepBalances(s: Sys, step: Step)
    requires Balanced(s)
    ensures Balanced(Next(s, step))
  {
    var t := Next(s, step);
    var k: int :| Accounted(s) == s.queue.counters.received + k * WORDS;
    IncrementWraps(s.queue.counters.received);
    IncrementWraps(s.queue.counters.processed);
    IncrementWraps(s.queue.counters.dropped);
    var change := (Accounted(t) - t.queue.counters.received) - (Accounted(s) - s.queue.counters.received);
    assert change == 0 || change == WORDS || change + WORDS == 0;
    var k' := if change == 0 then k else if change == WORDS then k + 1 else k - 1;
    assert Accounted(t) == t.queue.counters.received + k' * WORDS;
  }

  lemma StepConserves(s: Sys, step: Step)
    requires Conserved(s)
    ensures Conserved(Next(s, step))
  {
    StepBalances(s, step);
    if step.LeaveRing? && s.queue.items != [] {
      assert s.queue.items == [s.queue.items[0]] + s.queue.items[1..];
    }
  }

  /** At every interleaving point of any number of pushers and poppers, with the
      counters wrapping: received equals processed plus dropped plus pending plus
      the calls caught between their two counts, modulo 2^32; records leave in the
      order they entered and none is lost or repeated. */
  lemma {:induction false} RecordsConserved(trace: seq<Step>)
    ensures Conserved(Run(trace))
  {
    if trace == [] {
      var s := Run(trace);
      assert Accounted(s) == s.queue.counters.received + 0 * WORDS;
    } else {
      RecordsConserved(trace[..|trace| - 1]);
      StepConserves(Run(trace[..|trace| - 1]), trace[|trace| - 1]);
    }
  }

  /** With no call in flight the four diagnostic numbers balance. */
  lemma QuiescentDiagnosticsBalance(trace: seq<Step>)
    requires Run(trace).arriving == 0 && Run(trace).rejected == 0 && Run(trace).leaving == 0
    ensures var c := Run(trace).queue.counters;
            (c.processed + c.dropped + |Run(trace).queue.items|) % WORDS == c.received
  {
    RecordsConserved(trace);
    var s := Run(trace);
    var k: int :| Accounted(s) == s.queue.counters.received + k * WORDS;
  }

  // ----- handing vendor bonds out once -----

  datatype Observer = Observer(queue: Queue, observed: seq<Option<Identity>>)

  function FirstNew(records: seq<SmpRecord>, observed: seq<Option<Identity>>): (n: nat)
    ensures n <= |records|
    ensures forall i :: 0 <= i < n ==> Some(records[i].identity) in observed
    ensures n < |records| ==> Some(records[n].identity) !in observed
  {
    if records == [] then 0
    else if Some(records[0].identity) !in observed then 0
    else 1 + FirstNew(records[1..], observed)
  }

  function FirstFree(observed: seq<Option<Identity>>): (n: nat)
    ensures n <= |observed|
    ensures forall i :: 0 <= i < n ==> observed[i].Some?
    ensures n < |observed| ==> observed[n].None?
  {
    if observed == [] || observed[0].None? then 0 else 1 + FirstFree(observed[1..])
  }

  /** The vendor table as one call reads it: unreadable, or its records and whether a
      record can be taken out of it. */
  datatype Snapshot = Unreadable | Table(records: seq<SmpRecord>, takes: bool)

  /** The record a call marks as observed. */
  function Marked(o: Observer, snapshot: Snapshot): (r: Option<SmpRecord>)
    ensures r.Some? ==> FirstFree(o.observed) < |o.observed|
  {
    if o.queue.items != [] || snapshot.Unreadable? then None
    else
      var index := FirstNew(snapshot.records, o.observed);
      if index == |snapshot.records| || FirstFree(o.observed) == |o.observed| then None
      else Some(snapshot.records[index])
  }

  function NextSpec(o: Observer, snapshot: Snapshot): (Observer, Option<SmpRecord>) {
    var record := Marked(o, snapshot);
    if record.None? then (o.(queue := PopSpec(o.queue).0), PopSpec(o.queue).1)
    else
      var observed := o.observed[FirstFree(o.observed) := Some(record.value.identity)];
      if !snapshot.takes then (Observer(o.queue, observed), None)
      else
        var popped := PopSpec(PushSpec(o.queue, record.value));
        (Observer(popped.0, observed), popped.1)
  }

  class BleB1Controller {
    const queue: BleBondRecordQueue
    const observed: array<Option<Identity>>

    ghost predicate Valid()
      reads this, queue, queue.records
    {
      queue.Valid()
    }

    ghost function View(): Observer
      reads this, queue, observed
    {
      Observer(queue.View(), observed[..])
    }

    constructor (capacity: nat)
      ensures Valid() && View() == Observer(Queue([], Counters(0, 0, 0)), seq(capacity, _ => None))
    {
      queue := new BleBondRecordQueue();
      observed := new Option<Identity>[capacity](_ => None);
      new;
      assert observed[..] == seq(capacity, _ => None);
    }

    method FreeSlot() returns (slot: nat)
      ensures slot == FirstFree(observed[..])
    {
      slot := 0;
      while slot < observed.Length && observed[slot].Some?
        invariant slot <= observed.Length
        invariant forall i :: 0 <= i < slot ==> observed[i].Some?
      {
        slot := slot + 1;
      }
    }

    method NextVendorBondRecord(snapshot: Snapshot) returns (record: Option<SmpRecord>)
      requires Valid()
      modifies queue, queue.records, observed
      ensures Valid() && (View(), record) == NextSpec(old(View()), snapshot)
    {
      record := queue.Pop();
      if record.Some? || snapshot.Unreadable? {
        return;
      }
      var index := 0;
      while index < |snapshot.records|
        invariant index <= |snapshot.records|
        invariant View() == old(View())
        invariant forall i :: 0 <= i < index ==> Some(snapshot.records[i].identity) in observed[..]
        invariant Valid()
      {
        var candidate := snapshot.records[index];
        if Some(candidate.identity) !in observed[..] {
          var slot := FreeSlot();
          if slot == observed.Length {
            return None;
          }
          observed[slot] := Some(candidate.identity);
          if !snapshot.takes {
            return None;
          }
          queue.Push(candidate);
          break;
        }
        index := index + 1;
      }
      record := queue.Pop();
    }
  }

  /** Calls made so far, each with its own vendor snapshot: the identities marked as
      observed and the records handed out. */
  datatype History = History(observer: Observer, marked: seq<Identity>, delivered: seq<SmpRecord>)

  function CallNext(h: History, snapshot: Snapshot): History {
    var marked := Marked(h.observer, snapshot);
    var (o, record) := NextSpec(h.observer, snapshot);
    History(o, if marked.Some? then h.marked + [marked.value.identity] else h.marked,
            if record.Some? then h.delivered + [record.value] else h.delivered)
  }

  function Calls(capacity: nat, snapshots: seq<Snapshot>): History {
    if snapshots == [] then
      History(Observer(Queue([], Counters(0, 0, 0)), seq(capacity, _ => None)), [], [])
    else CallNext(Calls(capacity, snapshots[..|snapshots| - 1]), snapshots[|snapshots| - 1])
  }

  ghost predicate ObservedInv(h: History, capacity: nat) {
    var n := |h.marked|;
    && n <= |h.observer.observed| == capacity
    && (forall i :: 0 <= i < n ==> h.observer.observed[i] == Some(h.marked[i]))
    && (forall i :: n <= i < capacity ==> h.observer.observed[i] == None)
    && (forall i, j :: 0 <= i < j < n ==> h.marked[i] != h.marked[j])
  }

  ghost predicate DeliveredInv(marked: seq<Identity>, delivered: seq<SmpRecord>) {
    && (forall i :: 0 <= i < |delivered| ==> delivered[i].identity in marked)
    && (forall i, j :: 0 <= i < j < |delivered| ==> delivered[i].identity != delivered[j].identity)
  }

  /** Between calls the queue is empty and its counters agree. */
  ghost predicate QueueInv(q: Queue) {
    q.items == [] && q.counters.dropped == 0 && q.counters.received == q.counters.processed
  }

  ghost predicate OnceEach(h: History, capacity: nat) {
    ObservedInv(h, capacity) && DeliveredInv(h.marked, h.delivered) && QueueInv(h.observer.queue)
  }

  lemma ObservedIsMarked(h: History, capacity: nat, identity: Identity)
    requires ObservedInv(h, capacity)
    ensures Some(identity) in h.observer.observed <==> identity in h.marked
  {
    if identity in h.marked {
      var i :| 0 <= i < |h.marked| && h.marked[i] == identity;
      assert h.observer.observed[i] == Some(identity);
    }
  }

  lemma FreeSlotCountsMarked(h: History, capacity: nat)
    requires ObservedInv(h, capacity)
    ensures FirstFree(h.observer.observed) == |h.marked|
  {
    var n := |h.marked|;
    if n < capacity {
      assert h.observer.observed[n] == None;
    }
  }

  lemma PushThenPop(q: Queue, record: SmpRecord)
    requires QueueInv(q)
    ensures PopSpec(PushSpec(q, record)).1 == Some(record) && QueueInv(PopSpec(PushSpec(q, record)).0)
  {
    var pushed := PushSpec(q, record);
    assert pushed.items == [record] && pushed.items[1..] == [];
  }

  lemma MarkedIsNew(h: History, snapshot: Snapshot, capacity: nat)
    requires ObservedInv(h, capacity) && Marked(h.observer, snapshot).Some?
    ensures Marked(h.observer, snapshot).value.identity !in h.marked
  {
    ObservedIsMarked(h, capacity, Marked(h.observer, snapshot).value.identity);
  }

  lemma CallKeepsObserved(h: History, snapshot: Snapshot, capacity: nat)
    requires ObservedInv(h, capacity) && QueueInv(h.observer.queue)
    ensures ObservedInv(CallNext(h, snapshot), capacity) && QueueInv(CallNext(h, snapshot).observer.queue)
  {
    FreeSlotCountsMarked(h, capacity);
    if Marked(h.observer, snapshot).Some? {
      MarkedIsNew(h, snapshot, capacity);
      PushThenPop(h.observer.queue, Marked(h.observer, snapshot).value);
    }
  }

  lemma CallKeepsDelivered(h: History, snapshot: Snapshot, capacity: nat)
    requires OnceEach(h, capacity)
    ensures DeliveredInv(CallNext(h, snapshot).marked, CallNext(h, snapshot).delivered)
  {
    if Marked(h.observer, snapshot).Some? {
      MarkedIsNew(h, snapshot, capacity);
      PushThenPop(h.observer.queue, Marked(h.observer, snapshot).value);
      NewIdentityKeeps(h.marked, h.delivered, Marked(h.observer, snapshot).value);
    }
  }

  lemma NewIdentityKeeps(marked: seq<Identity>, delivered: seq<SmpRecord>, record: SmpRecord)
    requires DeliveredInv(marked, delivered) && record.identity !in marked
    ensures DeliveredInv(marked + [record.identity], delivered)
    ensures DeliveredInv(marked + [record.identity], delivered + [record])
  {
  }

  /** Over any number of calls with any vendor tables: every identity is handed out
      at most once, and the observed entries are distinct and fill a prefix. */
  lemma {:induction false} EachBondOnce(capacity: nat, snapshots: seq<Snapshot>)
    ensures OnceEach(Calls(capacity, snapshots), capacity)
  {
    if snapshots == [] {
    } else {
      var before := snapshots[..|snapshots| - 1];
      EachBondOnce(capacity, before);
      CallKeepsObserved(Calls(capacity, before), snapshots[|snapshots| - 1], capacity);
      CallKeepsDelivered(Calls(capacity, before), snapshots[|snapshots| - 1], capacity);
    }
  }

  /** When records can always be taken out of their snapshot, every bond marked as
      observed was handed out, in that order. */
  lemma {:induction false} MarkedAreDelivered(capacity: nat, snapshots: seq<Snapshot>)
    requires forall i :: 0 <= i < |snapshots| && snapshots[i].Table? ==> snapshots[i].takes
    ensures InStep(Calls(capacity, snapshots))
  {
    if snapshots == [] {
    } else {
      var before, last := snapshots[..|snapshots| - 1], snapshots[|snapshots| - 1];
      MarkedAreDelivered(capacity, before);
      EachBondOnce(capacity, before);
      CallKeepsInStep(Calls(capacity, before), last);
    }
  }

  /** The bonds marked and the bonds handed out are the same, in the same order. */
  predicate InStep(h: History) {
    |h.marked| == |h.delivered| && forall i :: 0 <= i < |h.marked| ==> h.marked[i] == h.delivered[i].identity
  }

  lemma CallKeepsInStep(h: History, snapshot: Snapshot)
    requires InStep(h) && QueueInv(h.observer.queue) && (snapshot.Table? ==> snapshot.takes)
    ensures InStep(CallNext(h, snapshot))
  {
    if Marked(h.observer, snapshot).Some? {
      PushThenPop(h.observer.queue, Marked(h.observer, snapshot).value);
    }
  }

  /** A record that is queued is handed out first, whatever the table, and nothing is
      marked for it. */
  lemma QueuedRecordsComeFirst(h: History, snapshot: Snapshot)
    requires h.observer.queue.items != []
    ensures var t := CallNext(h, snapshot);
            && t.delivered == h.delivered + [h.observer.queue.items[0]] && t.marked == h.marked
            && t.observer.queue.items == h.observer.queue.items[1..] && t.observer.observed == h.observer.observed
  {
  }

  /** The next call hands out the first bond of its table not marked before; it has
      none to give exactly when the table could not be read, holds no new bond, as many
      bonds were marked as can be remembered, or the record cannot be taken out. */
  lemma NextBondIsFirstNew(capacity: nat, snapshots: seq<Snapshot>, snapshot: Snapshot)
    ensures var h := Calls(capacity, snapshots);
            var record := NextSpec(h.observer, snapshot).1;
            && (record.None? <==>
                snapshot.Unreadable? || !snapshot.takes || |h.marked| == capacity
                || forall r :: r in snapshot.records ==> r.identity in h.marked)
            && (record.Some? ==> exists i ::
                  && 0 <= i < |snapshot.records| && snapshot.records[i] == record.value
                  && record.value.identity !in h.marked
                  && forall j :: 0 <= j < i ==> snapshot.records[j].identity in h.marked)
  {
    EachBondOnce(capacity, snapshots);
    var h := Calls(capacity, snapshots);
    FreeSlotCountsMarked(h, capacity);
    if snapshot.Table? {
      FirstNewIsUnmarked(h, snapshot.records, capacity);
      var index := FirstNew(snapshot.records, h.observer.observed);
      if index < |snapshot.records| {
        assert snapshot.records[index] in snapshot.records;
        PushThenPop(h.observer.queue, snapshot.records[index]);
      }
    }
  }

  lemma FirstNewIsUnmarked(h: History, records: seq<SmpRecord>, capacity: nat)
    requires ObservedInv(h, capacity)
    ensures var n := FirstNew(records, h.observer.observed);
            && (forall j :: 0 <= j < n ==> records[j].identity in h.marked)
            && (n < |records| ==> records[n].identity !in h.marked)
  {
    var n := FirstNew(records, h.observer.observed);
    forall j | 0 <= j < n
      ensures records[j].identity in h.marked
    {
      ObservedIsMarked(h, capacity, records[j].identity);
    }
    if n < |records| {
      ObservedIsMarked(h, capacity, records[n].identity);
    }
  }
}
