/** The allocator's lock-free event trace: 16 slots, each guarded by the sequence
    number of the event it holds, zero while a writer is inside. */
module AllocTrace {
  import opened Common
  import RingBuffer

  const CAPACITY: nat := 16

  datatype Event = Event(pointer: nat, size: nat, caller: nat)
  datatype Slot = Slot(sequence: u32, event: Event)

  type Slots = s: seq<Slot> | |s| == CAPACITY witness seq(CAPACITY, _ => Slot(0, Event(0, 0, 0)))

  /** The slot of event number `sequence`, counted from one. */
  function SlotOf(sequence: nat): (k: nat)
    requires sequence > 0
    ensures k < CAPACITY
  {
    (sequence - 1) % CAPACITY
  }

  // ----- writers and a reader, one atomic access at a time -----

  /** What a writer stores next. */
  datatype Stage = Clear | Pointer | Size | Caller | Publish

  /** How many of a slot's words the reader has loaded, and their values. */
  datatype Reader =
    | Idle
    | Reading(slot: nat, before: u32, loaded: nat, event: Event)

  /** `events[i]` is the event numbered `i + 1`; `writers` the numbers claimed and
      not yet published. */
  datatype Sys = Sys(events: seq<Event>, slots: Slots, writers: map<nat, Stage>, reader: Reader, accepted: seq<Slot>)

  datatype Step =
    | Claim(event: Event)
    | Store(writer: nat)
    | LoadBefore(slot: nat)
    | LoadNext
    | LoadAfter

  function Init(): Sys {
    Sys([], seq(CAPACITY, _ => Slot(0, Event(0, 0, 0))), map[], Idle, [])
  }

  predicate Claimed(s: Sys, writer: nat) {
    writer in s.writers && 1 <= writer <= |s.events| && writer <= U32_MAX
  }

  function StoreNext(s: Sys, writer: nat): Sys
    requires Claimed(s, writer)
  {
    var k := SlotOf(writer);
    var slot := s.slots[k];
    var event := s.events[writer - 1];
    match s.writers[writer]
    case Clear => s.(slots := s.slots[k := slot.(sequence := 0)], writers := s.writers[writer := Pointer])
    case Pointer =>
      s.(slots := s.slots[k := slot.(event := slot.event.(pointer := event.pointer))], writers := s.writers[writer := Size])
    case Size =>
      s.(slots := s.slots[k := slot.(event := slot.event.(size := event.size))], writers := s.writers[writer := Caller])
    case Caller =>
      s.(slots := s.slots[k := slot.(event := slot.event.(caller := event.caller))], writers := s.writers[writer := Publish])
    case Publish =>
      s.(slots := s.slots[k := slot.(sequence := writer)], writers := s.writers - {writer})
  }

  function Next(s: Sys, step: Step): Sys {
    match step
    case Claim(event) =>
      if |s.events| < U32_MAX
      then s.(events := s.events + [event], writers := s.writers[|s.events| + 1 := Clear])
      else s
    case Store(writer) => if Claimed(s, writer) then StoreNext(s, writer) else s
    case _ => s.(reader := ReaderNext(s, step).0, accepted := s.accepted + ReaderNext(s, step).1)
  }

  function ReaderNext(s: Sys, step: Step): (Reader, seq<Slot>) {
    match step
    case LoadBefore(k) =>
      if s.reader.Idle? && k < CAPACITY then (Reading(k, s.slots[k].sequence, 0, Event(0, 0, 0)), []) else (s.reader, [])
    case LoadNext =>
      if s.reader.Reading? && s.reader.slot < CAPACITY && s.reader.loaded < 3
      then (s.reader.(event := Loaded(s.reader, s.slots[s.reader.slot].event), loaded := s.reader.loaded + 1), [])
      else (s.reader, [])
    case LoadAfter =>
      if s.reader.Reading? && s.reader.slot < CAPACITY && s.reader.loaded == 3 then
        var after := s.slots[s.reader.slot].sequence;
        (Idle, if s.reader.before == after then [Slot(after, s.reader.event)] else [])
      else (s.reader, [])
    case _ => (s.reader, [])
  }

  /** Pointer, size and caller are loaded in that order. */
  function Loaded(r: Reader, from: Event): Event
    requires r.Reading?
  {
    if r.loaded == 0 then r.event.(pointer := from.pointer)
    else if r.loaded == 1 then r.event.(size := from.size)
    else r.event.(caller := from.caller)
  }

  function Run(trace: seq<Step>): Sys {
    if trace == [] then Init() else Next(Run(trace[..|trace| - 1]), trace[|trace| - 1])
  }

  /** No writer is inside the slot of the next number. */
  predicate NextSlotFree(s: Sys) {
    forall w :: w in s.writers && w > 0 ==> SlotOf(w) != SlotOf(|s.events| + 1)
  }

  /** No event is numbered while an earlier writer is still inside the same slot. */
  predicate Alone(s: Sys, step: Step) {
    step.Claim? ==> NextSlotFree(s)
  }

  predicate AloneRun(trace: seq<Step>) {
    trace == [] || (AloneRun(trace[..|trace| - 1]) && Alone(Run(trace[..|trace| - 1]), trace[|trace| - 1]))
  }

  // ----- what a slot holds -----

  ghost predicate WritersInv(s: Sys) {
    && |s.events| <= U32_MAX
    && (forall w :: w in s.writers ==> Claimed(s, w))
    && (forall v, w :: v in s.writers && w in s.writers && v != w ==> SlotOf(v) != SlotOf(w))
  }

  /** A numbered slot holds that event entire, published and not being rewritten. */
  ghost predicate Whole(s: Sys, k: nat)
    requires k < CAPACITY
  {
    var slot := s.slots[k];
    slot.sequence != 0 ==>
      slot.sequence <= |s.events| && slot.sequence !in s.writers && slot.event == s.events[slot.sequence - 1]
  }

  /** A writer past its first store has zeroed its slot and filled what it stored. */
  ghost predicate Filled(s: Sys, w: nat)
    requires Claimed(s, w)
  {
    var slot := s.slots[SlotOf(w)];
    var event := s.events[w - 1];
    && (s.writers[w] != Clear ==> slot.sequence == 0)
    && (s.writers[w] in {Size, Caller, Publish} ==> slot.event.pointer == event.pointer)
    && (s.writers[w] in {Caller, Publish} ==> slot.event.size == event.size)
    && (s.writers[w] == Publish ==> slot.event.caller == event.caller)
  }

  ghost predicate SlotsInv(s: Sys) {
    && WritersInv(s)
    && (forall k :: 0 <= k < CAPACITY ==> Whole(s, k))
    && (forall w :: w in s.writers ==> Filled(s, w))
  }

  /** While the slot still carries the number first loaded, what was loaded since is
      that event's. */
  ghost predicate ReaderInv(s: Sys) {
    s.reader.Reading? && s.reader.before != 0 ==>
      var r := s.reader;
      && r.slot < CAPACITY && r.before <= |s.events| && r.before !in s.writers
      && (s.slots[r.slot].sequence == r.before ==> LoadedFrom(r, s.events[r.before - 1]))
  }

  ghost predicate LoadedFrom(r: Reader, event: Event)
    requires r.Reading?
  {
    && (r.loaded >= 1 ==> r.event.pointer == event.pointer)
    && (r.loaded >= 2 ==> r.event.size == event.size)
    && (r.loaded >= 3 ==> r.event.caller == event.caller)
  }

  ghost predicate AcceptedInv(s: Sys) {
    forall i :: 0 <= i < |s.accepted| && s.accepted[i].sequence != 0 ==>
      s.accepted[i].sequence <= |s.events| && s.accepted[i].event == s.events[s.accepted[i].sequence - 1]
  }

  lemma ClaimKeepsSlots(s: Sys, event: Event)
    requires SlotsInv(s) && Alone(s, Claim(event))
    ensures SlotsInv(Next(s, Claim(event)))
  {
    var t := Next(s, Claim(event));
    forall w | w in t.writers
      ensures Claimed(t, w) && Filled(t, w)
    {
      if w in s.writers {
        assert Claimed(s, w) && Filled(s, w);
      }
    }
    forall k | 0 <= k < CAPACITY
      ensures Whole(t, k)
    {
      assert Whole(s, k);
    }
  }

  lemma StoreKeepsWriters(s: Sys, writer: nat)
    requires WritersInv(s) && Claimed(s, writer)
    ensures WritersInv(StoreNext(s, writer))
  {
    var t := StoreNext(s, writer);
    forall w | w in t.writers
      ensures w in s.writers && Claimed(t, w)
    {
      assert Claimed(s, w);
    }
  }

  lemma StoreKeepsOthers(s: Sys, writer: nat, w: nat)
    requires WritersInv(s) && Claimed(s, writer) && w in s.writers && w != writer
    requires Claimed(s, w) && Filled(s, w)
    ensures var t := StoreNext(s, writer); Claimed(t, w) && Filled(t, w)
  {
    assert SlotOf(w) != SlotOf(writer);
  }

  lemma StoreKeepsSlots(s: Sys, writer: nat)
    requires SlotsInv(s) && Claimed(s, writer)
    ensures SlotsInv(StoreNext(s, writer))
  {
    var t := StoreNext(s, writer);
    StoreKeepsWriters(s, writer);
    assert Filled(s, writer);
    forall w | w in t.writers
      ensures Filled(t, w)
    {
      if w != writer {
        StoreKeepsOthers(s, writer, w);
      }
    }
    forall k | 0 <= k < CAPACITY
      ensures Whole(t, k)
    {
      assert Whole(s, k);
    }
  }

  lemma StepKeepsReader(s: Sys, step: Step)
    requires SlotsInv(s) && ReaderInv(s)
    ensures ReaderInv(Next(s, step))
  {
    match step
    case LoadBefore(k) =>
      if k < CAPACITY { assert Whole(s, k); }
    case LoadNext =>
      if s.reader.Reading? && s.reader.slot < CAPACITY { assert Whole(s, s.reader.slot); }
    case _ =>
  }

  lemma StepKeepsAccepted(s: Sys, step: Step)
    requires SlotsInv(s) && ReaderInv(s) && AcceptedInv(s)
    ensures AcceptedInv(Next(s, step))
  {
    if step.LoadAfter? && s.reader.Reading? && s.reader.loaded == 3 {
      var r := s.reader;
      assert r.before != 0 && s.slots[r.slot].sequence == r.before ==> r.event == s.events[r.before - 1];
    }
  }

  lemma {:induction false} RunKeeps(trace: seq<Step>)
    requires AloneRun(trace)
    ensures SlotsInv(Run(trace)) && ReaderInv(Run(trace)) && AcceptedInv(Run(trace))
  {
    if trace == [] {
    } else {
      var s, step := Run(trace[..|trace| - 1]), trace[|trace| - 1];
      RunKeeps(trace[..|trace| - 1]);
      StepKeepsReader(s, step);
      StepKeepsAccepted(s, step);
      if step.Claim? {
        ClaimKeepsSlots(s, step.event);
      } else if step.Store? && Claimed(s, step.writer) {
        StoreKeepsSlots(s, step.writer);
      } else {
        SameSlots(s, Next(s, step));
      }
    }
  }

  lemma SameSlots(s: Sys, t: Sys)
    requires SlotsInv(s) && t == s.(reader := t.reader, accepted := t.accepted)
    ensures SlotsInv(t)
  {
    forall k | 0 <= k < CAPACITY
      ensures Whole(t, k)
    {
      assert Whole(s, k);
    }
    forall w | w in t.writers
      ensures Claimed(t, w) && Filled(t, w)
    {
      assert Claimed(s, w) && Filled(s, w);
    }
  }

  /** Every record a reader accepts with a number is that event entire, whatever the
      writers of all slots do meanwhile, as long as no two are inside one slot. */
  lemma AcceptedRecordsAreWhole(trace: seq<Step>, i: nat)
    requires AloneRun(trace) && i < |Run(trace).accepted| && Run(trace).accepted[i].sequence != 0
    ensures var s := Run(trace);
            s.accepted[i].sequence <= |s.events| && s.accepted[i].event == s.events[s.accepted[i].sequence - 1]
  {
    RunKeeps(trace);
  }

  // ----- two writers in one slot -----

  predicate NoClaims(steps: seq<Step>) {
    forall i :: 0 <= i < |steps| ==> !steps[i].Claim?
  }

  /** `s` can follow `base` without numbering another event. */
  ghost predicate Follows(base: seq<Step>, s: Sys) {
    exists more :: NoClaims(more) && Run(base + more) == s
  }

  lemma FollowsAtOnce(base: seq<Step>)
    ensures Follows(base, Run(base))
  {
    assert base + [] == base && NoClaims([]);
  }

  lemma FollowNext(base: seq<Step>, s: Sys, step: Step)
    requires Follows(base, s) && !step.Claim?
    ensures Follows(base, Next(s, step))
  {
    var more :| NoClaims(more) && Run(base + more) == s;
    var longer := more + [step];
    assert (base + longer)[..|base + more|] == base + more && NoClaims(longer);
    assert Run(base + longer) == Next(s, step);
  }

  /** A slot and the writer's place after its next store. */
  function AfterStore(slot: Slot, stage: Stage, event: Event, number: u32): (Slot, Option<Stage>) {
    match stage
    case Clear => (slot.(sequence := 0), Some(Pointer))
    case Pointer => (slot.(event := slot.event.(pointer := event.pointer)), Some(Size))
    case Size => (slot.(event := slot.event.(size := event.size)), Some(Caller))
    case Caller => (slot.(event := slot.event.(caller := event.caller)), Some(Publish))
    case Publish => (slot.(sequence := number), None)
  }

  ghost predicate SameButSlot(s: Sys, t: Sys) {
    t.events == s.events && t.reader == s.reader && t.accepted == s.accepted
  }

  lemma OneStore(base: seq<Step>, s: Sys, writer: nat) returns (t: Sys)
    requires Follows(base, s) && Claimed(s, writer)
    ensures Follows(base, t) && SameButSlot(s, t)
    ensures var after := AfterStore(s.slots[SlotOf(writer)], s.writers[writer], s.events[writer - 1], writer);
            && t.slots[SlotOf(writer)] == after.0
            && (after.1.Some? ==> writer in t.writers && t.writers[writer] == after.1.value)
    ensures t.writers.Keys == if s.writers[writer] == Publish then s.writers.Keys - {writer} else s.writers.Keys
    ensures forall w :: w in s.writers && w != writer ==> w in t.writers && t.writers[w] == s.writers[w]
  {
    FollowNext(base, s, Store(writer));
    t := Next(s, Store(writer));
  }

  lemma FillSlot(base: seq<Step>, s: Sys, late: nat) returns (t: Sys)
    requires Follows(base, s) && Claimed(s, late) && s.writers[late] == Clear
    ensures Follows(base, t) && SameButSlot(s, t) && Claimed(t, late) && t.writers[late] == Publish
    ensures t.slots[SlotOf(late)] == Slot(0, s.events[late - 1]) && t.writers.Keys == s.writers.Keys
    ensures forall w :: w in s.writers && w != late ==> w in t.writers && t.writers[w] == s.writers[w]
  {
    t := OneStore(base, s, late);
    t := OneStore(base, t, late);
    t := OneStore(base, t, late);
    t := OneStore(base, t, late);
  }

  /** A writer past its first store puts one word of its event into the other's record. */
  lemma MixWord(base: seq<Step>, s: Sys, early: nat, late: nat) returns (t: Sys)
    requires Follows(base, s) && Claimed(s, early) && Claimed(s, late) && early != late
    requires SlotOf(early) == SlotOf(late) && s.writers[early] in {Pointer, Size, Caller} && s.writers[late] == Clear
    ensures Follows(base, t) && SameButSlot(s, t) && t.writers.Keys == s.writers.Keys - {late}
    ensures t.slots[SlotOf(late)] == Slot(late, AfterStore(Slot(0, s.events[late - 1]), s.writers[early],
                                                           s.events[early - 1], early).0.event)
  {
    t := FillSlot(base, s, late);
    t := OneStore(base, t, early);
    t := OneStore(base, t, late);
  }

  lemma MixPointer(base: seq<Step>, s: Sys, early: nat, late: nat) returns (t: Sys)
    requires Follows(base, s) && Claimed(s, early) && Claimed(s, late) && early != late
    requires SlotOf(early) == SlotOf(late) && s.writers[early] == Clear && s.writers[late] == Clear
    ensures Follows(base, t) && SameButSlot(s, t) && t.writers.Keys == s.writers.Keys - {late}
    ensures t.slots[SlotOf(late)] == Slot(late, s.events[late - 1].(pointer := s.events[early - 1].pointer))
  {
    t := FillSlot(base, s, late);
    t := OneStore(base, t, early);
    t := OneStore(base, t, early);
    t := OneStore(base, t, late);
  }

  /** A writer about to publish numbers the pointer the other has just stored. */
  lemma MixNumber(base: seq<Step>, s: Sys, early: nat, late: nat) returns (t: Sys)
    requires Follows(base, s) && Claimed(s, early) && Claimed(s, late) && early != late
    requires SlotOf(early) == SlotOf(late) && s.writers[early] == Publish && s.writers[late] == Clear
    ensures Follows(base, t) && SameButSlot(s, t)
    ensures t.slots[SlotOf(late)].sequence == early
    ensures t.slots[SlotOf(late)].event.pointer == s.events[late - 1].pointer
  {
    t := OneStore(base, s, late);
    t := OneStore(base, t, late);
    t := OneStore(base, t, early);
  }

  lemma ReadBack(base: seq<Step>, s: Sys, k: nat) returns (t: Sys)
    requires Follows(base, s) && s.reader == Idle && k < CAPACITY
    ensures Follows(base, t) && t.events == s.events && t.writers == s.writers && t.accepted == s.accepted + [s.slots[k]]
  {
    FollowNext(base, s, LoadBefore(k));
    t := Next(s, LoadBefore(k));
    t := FinishRound(base, t);
  }

  ghost predicate ReaderShape(s: Sys) {
    s.reader.Reading? ==> s.reader.slot < CAPACITY && s.reader.loaded <= 3
  }

  lemma {:induction false} RunKeepsShape(trace: seq<Step>)
    ensures ReaderShape(Run(trace))
  {
    if trace == [] {
    } else {
      RunKeepsShape(trace[..|trace| - 1]);
    }
  }

  /** The reader ends the round it is in; if all it has loaded so far is the slot's, it
      accepts the slot. */
  lemma {:induction false} FinishRound(base: seq<Step>, s: Sys) returns (t: Sys)
    requires Follows(base, s) && ReaderShape(s)
    ensures Follows(base, t) && t.reader == Idle && t.events == s.events && t.writers == s.writers && t.slots == s.slots
    ensures s.reader.Reading? && FromSlot(s.reader, s.slots[s.reader.slot]) ==>
              t.accepted == s.accepted + [s.slots[s.reader.slot]]
    decreases if s.reader.Idle? then 0 else 5 - s.reader.loaded
  {
    if s.reader.Idle? {
      t := s;
    } else if s.reader.loaded < 3 {
      FollowNext(base, s, LoadNext);
      var next := Next(s, LoadNext);
      assert next == s.(reader := next.reader, accepted := s.accepted + []) && s.accepted + [] == s.accepted;
      t := FinishRound(base, next);
    } else {
      FollowNext(base, s, LoadAfter);
      t := Next(s, LoadAfter);
    }
  }

  ghost predicate FromSlot(r: Reader, slot: Slot)
    requires r.Reading?
  {
    r.before == slot.sequence && LoadedFrom(r, slot.event)
  }

  /** Some accepted record carries a number and is not that event. */
  lemma BadRecordShows(s: Sys, t: Sys, k: nat)
    requires k < CAPACITY && t.events == s.events && t.accepted == s.accepted + [s.slots[k]]
    requires 0 < s.slots[k].sequence <= |s.events| && s.slots[k].event != s.events[s.slots[k].sequence - 1]
    ensures !AcceptedInv(t)
  {
    var i := |s.accepted|;
    assert t.accepted[i] == s.slots[k];
  }

  lemma MixThem(base: seq<Step>, s: Sys, early: nat, late: nat) returns (t: Sys)
    requires Follows(base, s) && Claimed(s, early) && Claimed(s, late) && early != late
    requires SlotOf(early) == SlotOf(late) && s.writers[late] == Clear
    requires var (x, y) := (s.events[early - 1], s.events[late - 1]);
             x.pointer != y.pointer && x.size != y.size && x.caller != y.caller
    ensures Follows(base, t) && SameButSlot(s, t)
    ensures var slot := t.slots[SlotOf(late)];
            0 < slot.sequence <= |t.events| && slot.event != t.events[slot.sequence - 1]
  {
    if s.writers[early] == Clear {
      t := MixPointer(base, s, early, late);
    } else if s.writers[early] == Publish {
      t := MixNumber(base, s, early, late);
    } else {
      t := MixWord(base, s, early, late);
    }
  }

  /** An event sharing no word with another. */
  function Unlike(x: Event): Event {
    Event(x.pointer + 1, x.size + 1, x.caller + 1)
  }

  /** Whenever a writer is still inside the slot of the next number, some event can be
      numbered after which a reader accepts a record that is no event. */
  lemma SharedSlotCanMix(trace: seq<Step>, writer: nat) returns (event: Event, t: Sys)
    requires AloneRun(trace) && |Run(trace).events| < U32_MAX
    requires writer in Run(trace).writers && writer > 0 && SlotOf(writer) == SlotOf(|Run(trace).events| + 1)
    ensures Follows(trace + [Claim(event)], t) && !AcceptedInv(t)
  {
    WriterIsClaimed(trace, writer);
    event := Unlike(Run(trace).events[writer - 1]);
    var base := trace + [Claim(event)];
    var claimed := ClaimedNext(trace, event);
    FollowsAtOnce(base);
    RunKeepsShape(base);
    t := MixAndRead(base, claimed, writer, |Run(trace).events| + 1);
  }

  lemma WriterIsClaimed(trace: seq<Step>, writer: nat)
    requires AloneRun(trace) && writer in Run(trace).writers
    ensures Claimed(Run(trace), writer)
  {
    RunKeeps(trace);
  }

  lemma MixAndRead(base: seq<Step>, s: Sys, early: nat, late: nat) returns (t: Sys)
    requires Follows(base, s) && ReaderShape(s)
    requires Claimed(s, early) && Claimed(s, late) && early != late
    requires SlotOf(early) == SlotOf(late) && s.writers[late] == Clear
    requires s.events[late - 1] == Unlike(s.events[early - 1])
    ensures Follows(base, t) && !AcceptedInv(t)
  {
    var idle := FinishRound(base, s);
    var mixed := MixThem(base, idle, early, late);
    t := ReadBack(base, mixed, SlotOf(late));
    BadRecordShows(mixed, t, SlotOf(late));
  }

  lemma ClaimedNext(trace: seq<Step>, event: Event) returns (t: Sys)
    requires |Run(trace).events| < U32_MAX
    ensures t == Run(trace + [Claim(event)])
    ensures var s := Run(trace);
            && t.events == s.events + [event] && t.writers == s.writers[|s.events| + 1 := Clear]
            && t.reader == s.reader && t.accepted == s.accepted
  {
    assert (trace + [Claim(event)])[..|trace|] == trace;
    t := Run(trace + [Claim(event)]);
  }

  lemma {:induction false} AloneContinues(trace: seq<Step>, more: seq<Step>)
    requires AloneRun(trace) && NoClaims(more)
    ensures AloneRun(trace + more)
    decreases |more|
  {
    if more == [] {
      assert trace + more == trace;
    } else {
      var n := |more| - 1;
      assert (trace + more)[..|trace| + n] == trace + more[..n];
      AloneContinues(trace, more[..n]);
    }
  }

  lemma WholeIfFree(trace: seq<Step>, event: Event, more: seq<Step>)
    requires AloneRun(trace) && NextSlotFree(Run(trace)) && NoClaims(more)
    ensures AcceptedInv(Run(trace + [Claim(event)] + more))
  {
    assert (trace + [Claim(event)])[..|trace|] == trace;
    AloneContinues(trace + [Claim(event)], more);
    RunKeeps(trace + [Claim(event)] + more);
  }

  /** The condition is exact: numbering one more event can lead to an accepted record
      that is no event if and only if a writer is still inside that number's slot. */
  lemma WholeIffSlotFree(trace: seq<Step>)
    requires AloneRun(trace) && |Run(trace).events| < U32_MAX
    ensures NextSlotFree(Run(trace)) <==>
            forall event, more :: NoClaims(more) ==> AcceptedInv(Run(trace + [Claim(event)] + more))
  {
    if NextSlotFree(Run(trace)) {
      forall event, more | NoClaims(more)
        ensures AcceptedInv(Run(trace + [Claim(event)] + more))
      {
        WholeIfFree(trace, event, more);
      }
    } else {
      var writer :| writer in Run(trace).writers && writer > 0 && SlotOf(writer) == SlotOf(|Run(trace).events| + 1);
      var event, t := SharedSlotCanMix(trace, writer);
      var more :| NoClaims(more) && Run(trace + [Claim(event)] + more) == t;
    }
  }

  /** Events 1 to `n`, every writer but the first done. */
  lemma {:induction false} FirstWriterDelayed(n: nat) returns (base: seq<Step>, s: Sys)
    requires 1 <= n <= 20
    ensures Follows(base, s) && s.reader == Idle && s.accepted == []
    ensures |s.events| == n && forall i :: 0 <= i < n ==> s.events[i] == Event(i, i, i)
    ensures s.writers.Keys == {1} && s.writers[1] == Clear
  {
    if n == 1 {
      assert Run([]) == Init();
      FollowsAtOnce([]);
      base, s := ClaimNumbered([], Init());
    } else {
      var before, t := FirstWriterDelayed(n - 1);
      base, s := ClaimAndWrite(before, t);
    }
  }

  lemma ClaimAndWrite(before: seq<Step>, s: Sys) returns (base: seq<Step>, t: Sys)
    requires Follows(before, s) && |s.events| < 20 && |s.events| + 1 !in s.writers
    ensures Follows(base, t) && t.reader == s.reader && t.accepted == s.accepted
    ensures t.events == s.events + [Event(|s.events|, |s.events|, |s.events|)]
    ensures t.writers.Keys == s.writers.Keys
    ensures forall w :: w in t.writers ==> t.writers[w] == s.writers[w]
  {
    var claimed;
    base, claimed := ClaimNumbered(before, s);
    t := WriteAll(base, claimed, |s.events| + 1);
  }

  lemma ClaimNumbered(before: seq<Step>, s: Sys) returns (base: seq<Step>, t: Sys)
    requires Follows(before, s) && |s.events| < 20
    ensures Follows(base, t) && t.reader == s.reader && t.accepted == s.accepted
    ensures t.events == s.events + [Event(|s.events|, |s.events|, |s.events|)]
    ensures t.writers == s.writers[|s.events| + 1 := Clear]
  {
    var more :| NoClaims(more) && Run(before + more) == s;
    var event := Event(|s.events|, |s.events|, |s.events|);
    base := before + more + [Claim(event)];
    t := ClaimedNext(before + more, event);
    FollowsAtOnce(base);
  }

  lemma WriteAll(base: seq<Step>, s: Sys, n: nat) returns (t: Sys)
    requires Follows(base, s) && Claimed(s, n) && s.writers[n] == Clear
    ensures Follows(base, t) && SameButSlot(s, t) && t.writers.Keys == s.writers.Keys - {n}
    ensures forall w :: w in t.writers ==> w in s.writers && t.writers[w] == s.writers[w]
  {
    var filled := FillSlot(base, s, n);
    t := OneStore(base, filled, n);
  }

  /** An instance: one writer delayed across sixteen later events, all other writers
      having finished, mixes its pointer into a record that a reader accepts as the
      later event. */
  lemma DelayedWriterMixesRecords() returns (base: seq<Step>, s: Sys)
    ensures Follows(base, s) && s.writers.Keys == {1}
    ensures |s.accepted| == 1 && s.accepted[0].sequence == 17 == |s.events|
    ensures s.accepted[0].event != s.events[16]
  {
    base, s := FirstWriterDelayed(16);
    base, s := ClaimNumbered(base, s);
    s := MixPointer(base, s, 1, 17);
    s := ReadBack(base, s, 0);
  }

  // ----- the reader's retry loop -----

  /** The five loads of one round, at times `t` to `t + 4`, agree on the number. */
  ghost predicate ReadAt(memory: nat -> Slots, k: nat, t: nat, r: Slot)
    requires k < CAPACITY
  {
    && memory(t)[k].sequence == r.sequence == memory(t + 4)[k].sequence
    && r.event == Event(memory(t + 1)[k].event.pointer, memory(t + 2)[k].event.size, memory(t + 3)[k].event.caller)
  }

  predicate RoundAgrees(memory: nat -> Slots, k: nat, start: nat, n: nat)
    requires k < CAPACITY
  {
    memory(start + 5 * n)[k].sequence == memory(start + 5 * n + 4)[k].sequence
  }

  /** Round `n` from `start` on is the first to agree: where the retry loop ends. */
  ghost predicate EndsAfter(memory: nat -> Slots, k: nat, start: nat, n: nat)
    requires k < CAPACITY
  {
    RoundAgrees(memory, k, start, n) && forall m :: 0 <= m < n ==> !RoundAgrees(memory, k, start, m)
  }

  /** Reads one slot; `memory(t)` is what the slots hold at the `t`-th load.  The loop
      ends exactly when some round agrees, and returns the first that does. */
  method ReadSlot(memory: nat -> Slots, k: nat, start: nat, ghost n: nat) returns (r: Slot, end: nat)
    requires k < CAPACITY && EndsAfter(memory, k, start, n)
    ensures end == start + 5 * n + 5 && ReadAt(memory, k, start + 5 * n, r)
  {
    end := start;
    ghost var round := 0;
    while true
      invariant end == start + 5 * round && round <= n
      decreases n - round
    {
      var before := memory(end)[k].sequence;
      var pointer := memory(end + 1)[k].event.pointer;
      var size := memory(end + 2)[k].event.size;
      var caller := memory(end + 3)[k].event.caller;
      var after := memory(end + 4)[k].sequence;
      assert before == after <==> RoundAgrees(memory, k, start, round);
      end := end + 5;
      if before == after {
        return Slot(after, Event(pointer, size, caller)), end;
      }
      round := round + 1;
    }
  }

  /** Reading the slots from `k` on ends, each loop starting where the last ended. */
  ghost predicate Finishes(memory: nat -> Slots, k: nat, count: nat, start: nat)
    requires count <= CAPACITY
    decreases count - k
  {
    k >= count || exists n: nat :: EndsAfter(memory, k, start, n) && Finishes(memory, k + 1, count, start + 5 * n + 5)
  }

  lemma NextEnds(memory: nat -> Slots, k: nat, count: nat, start: nat) returns (n: nat)
    requires k < count <= CAPACITY && Finishes(memory, k, count, start)
    ensures EndsAfter(memory, k, start, n) && Finishes(memory, k + 1, count, start + 5 * n + 5)
  {
    n :| EndsAfter(memory, k, start, n) && Finishes(memory, k + 1, count, start + 5 * n + 5);
  }

  /** `allocation_trace_snapshot`: as much of the output as there are slots, each read
      in a round that agreed. */
  method Snapshot(memory: nat -> Slots, output: array<Slot>) returns (count: nat, ghost times: seq<nat>)
    requires Finishes(memory, 0, Min(output.Length, CAPACITY), 0)
    modifies output
    ensures count == Min(output.Length, CAPACITY) == |times|
    ensures forall k :: 0 <= k < count ==> ReadAt(memory, k, times[k], output[k])
    ensures output[count..] == old(output[count..])
  {
    count := Min(output.Length, CAPACITY);
    times := [];
    var now: nat := 0;
    for i := 0 to count
      invariant |times| == i && Finishes(memory, i, count, now)
      invariant forall k :: 0 <= k < i ==> ReadAt(memory, k, times[k], output[k])
      invariant output[count..] == old(output[count..])
    {
      ghost var n := NextEnds(memory, i, count, now);
      times := times + [now + 5 * n];
      var r;
      r, now := ReadSlot(memory, i, now, n);
      output[i] := r;
    }
  }

  /** No writer will store number `b` again. */
  ghost predicate Spent(s: Sys, b: nat) {
    b !in s.writers && b <= |s.events|
  }

  lemma StepKeepsSpent(s: Sys, step: Step, k: nat, b: nat)
    requires Spent(s, b) && k < CAPACITY
    ensures Spent(Next(s, step), b)
    ensures b > 0 && s.slots[k].sequence != b ==> Next(s, step).slots[k].sequence != b
  {
  }

  lemma RunTo(trace: seq<Step>, j: nat)
    requires 0 < j <= |trace|
    ensures Run(trace[..j]) == Next(Run(trace[..j - 1]), trace[j - 1])
  {
    assert trace[..j][..j - 1] == trace[..j - 1];
  }

  lemma {:induction false} EventsGrow(trace: seq<Step>, m: nat, j: nat)
    requires m <= j <= |trace|
    ensures Run(trace[..m]).events <= Run(trace[..j]).events
    decreases j
  {
    if j == m {
    } else {
      EventsGrow(trace, m, j - 1);
      RunTo(trace, j);
      StepKeepsEvents(Run(trace[..j - 1]), trace[j - 1]);
    }
  }

  lemma StepKeepsEvents(s: Sys, step: Step)
    ensures s.events <= Next(s, step).events
  {
  }

  lemma {:induction false} AlonePrefix(trace: seq<Step>, m: nat)
    requires AloneRun(trace) && m <= |trace|
    ensures AloneRun(trace[..m])
  {
    if m == |trace| {
      assert trace[..m] == trace;
    } else {
      AlonePrefix(trace[..|trace| - 1], m);
      assert trace[..|trace| - 1][..m] == trace[..m];
    }
  }

  /** A number once gone from a slot does not come back. */
  lemma {:induction false} GoneForGood(trace: seq<Step>, m: nat, j: nat, k: nat, b: nat)
    requires m <= j <= |trace| && k < CAPACITY && b > 0 && Spent(Run(trace[..m]), b)
    ensures Spent(Run(trace[..j]), b)
    ensures Run(trace[..m]).slots[k].sequence != b ==> Run(trace[..j]).slots[k].sequence != b
    decreases j
  {
    if j == m {
    } else {
      GoneForGood(trace, m, j - 1, k, b);
      StepKeepsSpent(Run(trace[..j - 1]), trace[j - 1], k, b);
      RunTo(trace, j);
    }
  }

  lemma WholeAt(trace: seq<Step>, m: nat, k: nat)
    requires AloneRun(trace) && m <= |trace| && k < CAPACITY
    ensures Whole(Run(trace[..m]), k)
  {
    AlonePrefix(trace, m);
    RunKeeps(trace[..m]);
  }

  lemma HeldBetween(trace: seq<Step>, first: nat, m: nat, last: nat, k: nat, b: u32)
    requires AloneRun(trace) && first <= m <= last <= |trace| && k < CAPACITY && b > 0
    requires Run(trace[..first]).slots[k].sequence == b == Run(trace[..last]).slots[k].sequence
    ensures b <= |Run(trace).events| && Run(trace[..m]).slots[k].event == Run(trace).events[b - 1]
  {
    WholeAt(trace, first, k);
    GoneForGood(trace, first, m, k, b);
    GoneForGood(trace, m, last, k, b);
    WholeAt(trace, m, k);
    EventsGrow(trace, m, |trace|);
    assert trace[..|trace|] == trace;
  }

  /** What the loop accepts with a number is that event entire, whatever steps lie
      between its loads: `done(t)` steps of the run precede load `t`. */
  lemma ReadRecordsAreWhole(trace: seq<Step>, done: nat -> nat, memory: nat -> Slots, k: nat, t: nat, r: Slot)
    requires AloneRun(trace) && k < CAPACITY && ReadAt(memory, k, t, r) && r.sequence != 0
    requires forall u: nat, v: nat :: u <= v ==> done(u) <= done(v)
    requires forall u: nat :: done(u) <= |trace| && memory(u) == Run(trace[..done(u)]).slots
    ensures r.sequence <= |Run(trace).events| && r.event == Run(trace).events[r.sequence - 1]
  {
    LoadsAreWhole(trace, done(t), done(t + 1), done(t + 2), done(t + 3), done(t + 4), k, r);
  }

  lemma LoadsAreWhole(trace: seq<Step>, d0: nat, d1: nat, d2: nat, d3: nat, d4: nat, k: nat, r: Slot)
    requires AloneRun(trace) && k < CAPACITY && r.sequence != 0 && d0 <= d1 <= d2 <= d3 <= d4 <= |trace|
    requires Run(trace[..d0]).slots[k].sequence == r.sequence == Run(trace[..d4]).slots[k].sequence
    requires r.event == Event(Run(trace[..d1]).slots[k].event.pointer, Run(trace[..d2]).slots[k].event.size,
                              Run(trace[..d3]).slots[k].event.caller)
    ensures r.sequence <= |Run(trace).events| && r.event == Run(trace).events[r.sequence - 1]
  {
    HeldBetween(trace, d0, d1, d4, k, r.sequence);
    HeldBetween(trace, d0, d2, d4, k, r.sequence);
    HeldBetween(trace, d0, d3, d4, k, r.sequence);
  }

  // ----- calls one after another -----

  function RecordSpec(sequence: u32, slots: Slots, event: Event): (u32, Slots) {
    var next := Increment(sequence);
    (next, slots[Decrement(next) % CAPACITY := Slot(next, event)])
  }

  class AllocationTrace {
    var sequence: u32
    const slots: array<Slot>

    ghost predicate Valid()
      reads this
    {
      slots.Length == CAPACITY
    }

    constructor ()
      ensures Valid() && fresh(slots) && sequence == 0 && slots[..] == seq(CAPACITY, _ => Slot(0, Event(0, 0, 0)))
    {
      sequence := 0;
      slots := new Slot[CAPACITY](_ => Slot(0, Event(0, 0, 0)));
      new;
      assert slots[..] == seq(CAPACITY, _ => Slot(0, Event(0, 0, 0)));
    }

    method RecordAllocation(event: Event)
      requires Valid()
      modifies this, slots
      ensures Valid() && (sequence, slots[..]) == RecordSpec(old(sequence), old(slots[..]), event)
    {
      sequence := Increment(sequence);
      var k := Decrement(sequence) % CAPACITY;
      slots[k] := slots[k].(sequence := 0);
      slots[k] := slots[k].(event := event);
      slots[k] := slots[k].(sequence := sequence);
      assert slots[..] == old(slots[..])[k := Slot(sequence, event)];
    }
  }

  function Recorded(events: seq<Event>): (u32, Slots) {
    if events == [] then (0, seq(CAPACITY, _ => Slot(0, Event(0, 0, 0))))
    else
      var before := Recorded(events[..|events| - 1]);
      RecordSpec(before.0, before.1, events[|events| - 1])
  }

  /** The trace holds exactly the last sixteen events, each in its own slot. */
  lemma {:induction false} LastSixteenKept(events: seq<Event>)
    requires |events| <= U32_MAX
    ensures Recorded(events).0 == |events|
    ensures forall s :: 0 < s <= |events| < s + CAPACITY ==> Recorded(events).1[SlotOf(s)] == Slot(s, events[s - 1])
    ensures forall k :: |events| <= k < CAPACITY ==> Recorded(events).1[k].sequence == 0
  {
    if events == [] {
    } else {
      var n := |events|;
      LastSixteenKept(events[..n - 1]);
      var before := Recorded(events[..n - 1]);
      assert Recorded(events) == (n, before.1[SlotOf(n) := Slot(n, events[n - 1])]);
      forall s | 0 < s <= n < s + CAPACITY
        ensures Recorded(events).1[SlotOf(s)] == Slot(s, events[s - 1])
      {
        if s < n {
          RingBuffer.SlotsDiffer(s - 1, n - 1, CAPACITY);
          assert before.1[SlotOf(s)] == Slot(s, events[..n - 1][s - 1]);
        }
      }
    }
  }
}
