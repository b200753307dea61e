/** The wake bridge between callback context and the single incremental runner.

    Two edge counters record callback signals, a waker slot holds the runner's
    registration and `scheduled` says that the executor has the runner queued.
    Every function on `Bridge` below is one atomic operation of the source, so
    a call is a sequence of them.  The class runs the calls without
    interference; the state machine interleaves any number of signallers with
    the one poller, one atomic operation at a time. */
module WaitBridge {
  import opened Common

  const SIGNAL_DONE: nat := 6
  const POLL_CONCLUDES: nat := 7

  datatype WaitSet = WaitSet(backend: bool, l2: bool, timer: bool) {
    predicate IsEmpty() { !backend && !l2 && !timer }
  }

  const NO_SOURCE := WaitSet(false, false, false)
  const BACKEND := WaitSet(true, false, false)

  function SaturatingIncrement(x: u32): u32 {
    if x < U32_MAX then x + 1 else x
  }

  function SaturatingMin(x: nat): u32 {
    if x < U32_MAX then x else U32_MAX
  }

  /** Counters nothing decides on. */
  datatype Diagnostics = Diagnostics(
    backendSignals: u32,
    l2Signals: u32,
    wakerNotifications: u32,
    pollCalls: u32,
    pendingPolls: u32,
    readyPolls: u32,
    timerReadyPolls: u32)

  /** The pending-edge counters, the waker slot, the executor's queue flag and the diagnostics. */
  datatype Bridge = Bridge(backendPending: u32, l2Pending: u32, waker: bool, scheduled: bool, diag: Diagnostics)

  function NewBridge(): Bridge {
    Bridge(0, 0, false, false, Diagnostics(0, 0, 0, 0, 0, 0, 0))
  }

  /** `wake` schedules a registered runner.  Whether the slot keeps the
      registration afterwards (`keep`) is left open: nothing below depends on it. */
  function Wake(b: Bridge, keep: bool): Bridge {
    if b.waker then b.(scheduled := true, waker := keep) else b
  }

  // ----- signal -----

  /** The atomic operation a `signal(source)` call performs at `pc`. */
  function SignalAct(b: Bridge, source: WaitSet, pc: nat, keep: bool): Bridge {
    if pc == 0 && source.backend then b.(diag := b.diag.(backendSignals := SaturatingIncrement(b.diag.backendSignals)))
    else if pc == 1 && source.backend then b.(backendPending := SaturatingIncrement(b.backendPending))
    else if pc == 2 && source.l2 then b.(diag := b.diag.(l2Signals := SaturatingIncrement(b.diag.l2Signals)))
    else if pc == 3 && source.l2 then b.(l2Pending := SaturatingIncrement(b.l2Pending))
    else if pc == 4 then b.(diag := b.diag.(wakerNotifications := SaturatingIncrement(b.diag.wakerNotifications)))
    else if pc == 5 then Wake(b, keep)
    else b
  }

  /** The rest of a `signal` call, run without interference. */
  function RunSignal(b: Bridge, source: WaitSet, pc: nat, keep: bool): Bridge
    decreases SIGNAL_DONE - pc
  {
    if pc >= SIGNAL_DONE then b
    else RunSignal(SignalAct(b, source, pc, keep), source, pc + 1, keep)
  }

  /** A whole `signal` call: one saturating edge and count per named source, one
      notification, and a registered waiter scheduled. */
  lemma SignalEffect(b: Bridge, source: WaitSet, keep: bool)
    ensures RunSignal(b, source, 0, keep) ==
            Bridge(SaturatingMin(b.backendPending + One(source.backend)), SaturatingMin(b.l2Pending + One(source.l2)),
                   b.waker && keep, b.scheduled || b.waker,
                   b.diag.(backendSignals := SaturatingMin(b.diag.backendSignals + One(source.backend)),
                           l2Signals := SaturatingMin(b.diag.l2Signals + One(source.l2)),
                           wakerNotifications := SaturatingMin(b.diag.wakerNotifications + 1)))
  {
    var b1 := SignalAct(b, source, 0, keep);
    var b2 := SignalAct(b1, source, 1, keep);
    var b3 := SignalAct(b2, source, 2, keep);
    var b4 := SignalAct(b3, source, 3, keep);
    var b5 := SignalAct(b4, source, 4, keep);
    assert RunSignal(b4, source, 4, keep) == SignalAct(b5, source, 5, keep);
    assert RunSignal(b2, source, 2, keep) == RunSignal(b4, source, 4, keep);
  }

  // ----- poll_ready -----

  /** Where the runner is: in its own code, parked after `Pending`, or inside
      `poll_ready`.  `tookBackend` and `tookL2` count the edges this poll consumed. */
  datatype Poller =
    | Running(last: WaitSet)
    | Parked(sources: WaitSet)
    | Polling(sources: WaitSet, pc: nat, ready: WaitSet, tookBackend: nat, tookL2: nat)

  datatype Pair = Pair(bridge: Bridge, poller: Poller)

  function TakeBackend(b: Bridge, p: Poller): Pair
    requires p.Polling?
  {
    if p.sources.backend && b.backendPending > 0 then
      Pair(b.(backendPending := b.backendPending - 1),
           p.(pc := p.pc + 1, ready := p.ready.(backend := true), tookBackend := p.tookBackend + 1))
    else Pair(b, p.(pc := p.pc + 1))
  }

  function TakeL2(b: Bridge, p: Poller): Pair
    requires p.Polling?
  {
    if p.sources.l2 && b.l2Pending > 0 then
      Pair(b.(l2Pending := b.l2Pending - 1),
           p.(pc := p.pc + 1, ready := p.ready.(l2 := true), tookL2 := p.tookL2 + 1))
    else Pair(b, p.(pc := p.pc + 1))
  }

  function Conclude(b: Bridge, p: Poller): Pair
    requires p.Polling?
  {
    if p.ready.IsEmpty() then
      Pair(b.(diag := b.diag.(pendingPolls := SaturatingIncrement(b.diag.pendingPolls))), Parked(p.sources))
    else
      Pair(b.(diag := b.diag.(readyPolls := SaturatingIncrement(b.diag.readyPolls),
                              timerReadyPolls := if p.ready.timer then SaturatingIncrement(b.diag.timerReadyPolls)
                                                 else b.diag.timerReadyPolls)),
           Running(p.ready))
  }

  /** The operation a `poll_ready` call performs at `pc`.  `rx` and `timer` are
      what the receive queue and the deadline timer answer when they are asked. */
  function PollAct(b: Bridge, p: Poller, rx: bool, timer: bool): Pair
    requires p.Polling?
  {
    if p.pc == 0 then Pair(b.(diag := b.diag.(pollCalls := SaturatingIncrement(b.diag.pollCalls))), p.(pc := 1))
    else if p.pc == 1 then Pair(b.(waker := true), p.(pc := 2))
    else if p.pc == 2 then TakeBackend(b, p)
    else if p.pc == 3 then TakeL2(b, p)
    else if p.pc == 4 then
      Pair(b, p.(pc := 5, ready := p.ready.(l2 := p.ready.l2 || (p.sources.l2 && rx),
                                            timer := p.sources.timer && timer)))
    else if p.pc == 5 then
      if p.ready.IsEmpty() then TakeBackend(b, p) else Pair(b, p.(pc := POLL_CONCLUDES))
    else if p.pc == 6 then TakeL2(b, p)
    else Conclude(b, p)
  }

  function Enter(sources: WaitSet): Poller {
    Polling(sources, 0, NO_SOURCE, 0, 0)
  }

  /** An undisturbed poll just before its second look. */
  function FirstLook(b: Bridge, sources: WaitSet, rx: bool, timer: bool): Pair {
    var takeBackend := sources.backend && b.backendPending > 0;
    var takeL2 := sources.l2 && b.l2Pending > 0;
    Pair(b.(diag := b.diag.(pollCalls := SaturatingIncrement(b.diag.pollCalls)),
            waker := true,
            backendPending := b.backendPending - (if takeBackend then 1 else 0),
            l2Pending := b.l2Pending - (if takeL2 then 1 else 0)),
         Polling(sources, 5, WaitSet(takeBackend, takeL2 || (sources.l2 && rx), sources.timer && timer),
                 if takeBackend then 1 else 0, if takeL2 then 1 else 0))
  }

  /** An undisturbed poll from its second look onwards. */
  function SecondLook(b: Bridge, p: Poller): Pair
    requires p.Polling?
  {
    if p.ready.IsEmpty() then
      var first := TakeBackend(b, p);
      var second := TakeL2(first.bridge, first.poller);
      Conclude(second.bridge, second.poller)
    else Conclude(b, p)
  }

  /** The two first takes together. */
  lemma TakesTogether(b: Bridge, p: Poller)
    requires p.Polling? && p.ready == NO_SOURCE && p.tookBackend == 0 && p.tookL2 == 0
    ensures var takeBackend := p.sources.backend && b.backendPending > 0;
            var takeL2 := p.sources.l2 && b.l2Pending > 0;
            var n2 := TakeBackend(b, p);
            TakeL2(n2.bridge, n2.poller) ==
            Pair(b.(backendPending := b.backendPending - (if takeBackend then 1 else 0),
                    l2Pending := b.l2Pending - (if takeL2 then 1 else 0)),
                 Polling(p.sources, p.pc + 2, WaitSet(takeBackend, takeL2, false),
                         if takeBackend then 1 else 0, if takeL2 then 1 else 0))
  {
  }

  /** Five of the poller's operations in a row make the first look. */
  lemma FirstLookRuns(b: Bridge, sources: WaitSet, rx: bool, timer: bool)
    ensures var n0 := PollAct(b, Enter(sources), rx, timer);
            var n1 := PollAct(n0.bridge, n0.poller, rx, timer);
            var n2 := PollAct(n1.bridge, n1.poller, rx, timer);
            var n3 := PollAct(n2.bridge, n2.poller, rx, timer);
            PollAct(n3.bridge, n3.poller, rx, timer) == FirstLook(b, sources, rx, timer)
  {
    TakesTogether(b.(diag := b.diag.(pollCalls := SaturatingIncrement(b.diag.pollCalls)), waker := true),
                  Polling(sources, 2, NO_SOURCE, 0, 0));
  }

  /** The remaining ones, two of them skipped when something was found, end the poll. */
  lemma SecondLookRuns(b: Bridge, p: Poller, rx: bool, timer: bool)
    requires p.Polling? && p.pc == 5
    ensures var n5 := PollAct(b, p, rx, timer);
            var n6 := PollAct(n5.bridge, n5.poller, rx, timer);
            SecondLook(b, p) == if p.ready.IsEmpty() then PollAct(n6.bridge, n6.poller, rx, timer) else n6
  {
  }

  /** What a poll finds: edges, a queued frame, an elapsed deadline. */
  function Found(b: Bridge, sources: WaitSet, rx: bool, timer: bool): WaitSet {
    WaitSet(sources.backend && b.backendPending > 0, sources.l2 && (b.l2Pending > 0 || rx), sources.timer && timer)
  }

  function Counted(d: Diagnostics, ready: WaitSet): Diagnostics {
    d.(pendingPolls := if ready.IsEmpty() then SaturatingIncrement(d.pendingPolls) else d.pendingPolls,
       readyPolls := if ready.IsEmpty() then d.readyPolls else SaturatingIncrement(d.readyPolls),
       timerReadyPolls := if ready.timer then SaturatingIncrement(d.timerReadyPolls) else d.timerReadyPolls)
  }

  /** An undisturbed poll as a whole. */
  function PollOnce(b: Bridge, sources: WaitSet, rx: bool, timer: bool): Pair {
    var ready := Found(b, sources, rx, timer);
    Pair(Bridge(b.backendPending - One(ready.backend), b.l2Pending - One(sources.l2 && b.l2Pending > 0),
                true, b.scheduled, Counted(b.diag.(pollCalls := SaturatingIncrement(b.diag.pollCalls)), ready)),
         if ready.IsEmpty() then Parked(sources) else Running(ready))
  }

  /** Without interference the second look finds nothing the first did not. */
  lemma PollOnceIsTwoLooks(b: Bridge, sources: WaitSet, rx: bool, timer: bool)
    ensures var first := FirstLook(b, sources, rx, timer);
            SecondLook(first.bridge, first.poller) == PollOnce(b, sources, rx, timer)
  {
  }

  /** The bridge as the source holds it: one object whose fields every call updates. */
  class WaitSignals {
    var backendPending: u32
    var l2Pending: u32
    var waker: bool
    var scheduled: bool
    var backendSignals: u32
    var l2Signals: u32
    var wakerNotifications: u32
    var pollCalls: u32
    var pendingPolls: u32
    var readyPolls: u32
    var timerReadyPolls: u32

    function View(): Bridge
      reads this
    {
      Bridge(backendPending, l2Pending, waker, scheduled,
             Diagnostics(backendSignals, l2Signals, wakerNotifications, pollCalls, pendingPolls, readyPolls,
                         timerReadyPolls))
    }

    constructor ()
      ensures View() == NewBridge()
    {
      backendPending, l2Pending, waker, scheduled := 0, 0, false, false;
      backendSignals, l2Signals, wakerNotifications := 0, 0, 0;
      pollCalls, pendingPolls, readyPolls, timerReadyPolls := 0, 0, 0, 0;
    }

    method Signal(source: WaitSet, keep: bool)
      modifies this
      ensures View() == RunSignal(old(View()), source, 0, keep)
      ensures backendPending == SaturatingMin(old(backendPending) + One(source.backend))
      ensures l2Pending == SaturatingMin(old(l2Pending) + One(source.l2))
      ensures scheduled == (old(scheduled) || old(waker))
    {
      SignalEffect(View(), source, keep);
      if source.backend {
        backendSignals := SaturatingIncrement(backendSignals);
        backendPending := SaturatingIncrement(backendPending);
      }
      if source.l2 {
        l2Signals := SaturatingIncrement(l2Signals);
        l2Pending := SaturatingIncrement(l2Pending);
      }
      wakerNotifications := SaturatingIncrement(wakerNotifications);
      if waker {
        scheduled, waker := true, keep;
      }
    }

    method TakeReady(sources: WaitSet) returns (ready: WaitSet)
      modifies this`backendPending, this`l2Pending
      ensures ready == WaitSet(sources.backend && old(backendPending) > 0, sources.l2 && old(l2Pending) > 0, false)
      ensures backendPending == old(backendPending) - One(ready.backend)
      ensures l2Pending == old(l2Pending) - One(ready.l2)
    {
      ready := NO_SOURCE;
      if sources.backend && backendPending > 0 {
        backendPending := backendPending - 1;
        ready := ready.(backend := true);
      }
      if sources.l2 && l2Pending > 0 {
        l2Pending := l2Pending - 1;
        ready := ready.(l2 := true);
      }
    }

    /** `None` is `Poll::Pending`. */
    method PollReady(sources: WaitSet, rx: bool, timer: bool) returns (result: Option<WaitSet>)
      modifies this
      ensures Pair(View(), if result.None? then Parked(sources) else Running(result.value))
              == PollOnce(old(View()), sources, rx, timer)
      ensures result == var ready := Found(old(View()), sources, rx, timer);
                        if ready.IsEmpty() then None else Some(ready)
      ensures result.None? <==>
                && !(sources.backend && old(backendPending) > 0)
                && !(sources.l2 && (old(l2Pending) > 0 || rx))
                && !(sources.timer && timer)
    {
      pollCalls := SaturatingIncrement(pollCalls);
      waker := true;
      var ready := FindReady(sources, rx, timer);
      CountPoll(ready);
      result := if ready.IsEmpty() then None else Some(ready);
    }

    method CountPoll(ready: WaitSet)
      modifies this`pendingPolls, this`readyPolls, this`timerReadyPolls
      ensures View().diag == Counted(old(View()).diag, ready)
    {
      if ready.IsEmpty() {
        pendingPolls := SaturatingIncrement(pendingPolls);
      } else {
        readyPolls := SaturatingIncrement(readyPolls);
        if ready.timer {
          timerReadyPolls := SaturatingIncrement(timerReadyPolls);
        }
      }
    }

    /** Both looks, once the waker is registered. */
    method FindReady(sources: WaitSet, rx: bool, timer: bool) returns (ready: WaitSet)
      modifies this`backendPending, this`l2Pending
      ensures ready == Found(old(View()), sources, rx, timer)
      ensures backendPending == old(backendPending) - One(ready.backend)
      ensures l2Pending == old(l2Pending) - One(sources.l2 && old(l2Pending) > 0)
    {
      ready := TakeReady(sources);
      if sources.l2 && rx {
        ready := ready.(l2 := true);
      }
      if sources.timer && timer {
        ready := ready.(timer := true);
      }
      if ready.IsEmpty() {
        ready := TakeReady(sources);
      }
    }
  }

  // ----- interleaving any number of signallers with the one poller -----

  datatype Signaller = Signaller(source: WaitSet, pc: nat)

  /** `sent` counts signals that reached a pending counter, `lost` those that
      found it saturated, and `taken` successful decrements.  `asked` is what the
      receive queue and the timer answered the current poll, `gotBackend` and `gotL2`
      what the current poll took off the counters, `polls` every poll that ended;
      `calls` and `notified` count polls begun and wakers called. */
  datatype State = State(
    b: Bridge,
    sigs: seq<Signaller>,
    poller: Poller,
    sentBackend: nat,
    lostBackend: nat,
    takenBackend: nat,
    sentL2: nat,
    lostL2: nat,
    takenL2: nat,
    asked: Asked,
    gotBackend: nat,
    gotL2: nat,
    polls: seq<PollRecord>,
    calls: nat,
    notified: nat)

  datatype Asked = Asked(rx: bool, timer: bool)

  /** A poll that ended: its sources, the answers it got, the edges it took and what it
      returned (`None` is pending). */
  datatype PollRecord = PollRecord(sources: WaitSet, asked: Asked, gotBackend: nat, gotL2: nat,
                                   result: Option<WaitSet>)

  datatype Step =
    | NewSignal(source: WaitSet)
    | SignalStep(i: nat, keep: bool)
    | BeginPoll(sources: WaitSet)
    | PollStep(rx: bool, timer: bool)
    | Resume        // the executor runs a scheduled runner again
    | OutsideWake   // the timer or another future of the same task schedules it

  function Init(): State {
    State(NewBridge(), [], Running(NO_SOURCE), 0, 0, 0, 0, 0, 0, Asked(false, false), 0, 0, [], 0, 0)
  }

  function Increments(sig: Signaller, at: nat, wanted: bool): nat {
    if sig.pc == at && wanted then 1 else 0
  }

  /** One interleaving step; a step that is not enabled changes nothing. */
  function Next(s: State, step: Step): State {
    match step
    case NewSignal(source) => s.(sigs := s.sigs + [Signaller(source, 0)])
    case SignalStep(i, keep) =>
      if i < |s.sigs| && s.sigs[i].pc < SIGNAL_DONE then
        var sig := s.sigs[i];
        s.(b := SignalAct(s.b, sig.source, sig.pc, keep),
           sigs := s.sigs[i := sig.(pc := sig.pc + 1)],
           sentBackend := s.sentBackend + Increments(sig, 1, sig.source.backend),
           lostBackend := s.lostBackend + Increments(sig, 1, sig.source.backend && s.b.backendPending == U32_MAX),
           sentL2 := s.sentL2 + Increments(sig, 3, sig.source.l2),
           lostL2 := s.lostL2 + Increments(sig, 3, sig.source.l2 && s.b.l2Pending == U32_MAX),
           notified := s.notified + Increments(sig, 4, true))
      else s
    case BeginPoll(sources) =>
      if s.poller.Running? then s.(poller := Enter(sources), gotBackend := 0, gotL2 := 0) else s
    case PollStep(rx, timer) =>
      if s.poller.Polling? then
        var next := PollAct(s.b, s.poller, rx, timer);
        var gotBackend := s.b.backendPending - next.bridge.backendPending;
        var gotL2 := s.b.l2Pending - next.bridge.l2Pending;
        var asked := if s.poller.pc == 4 then Asked(rx, timer) else s.asked;
        s.(b := next.bridge, poller := next.poller,
           takenBackend := s.takenBackend + gotBackend, takenL2 := s.takenL2 + gotL2,
           asked := asked, gotBackend := s.gotBackend + gotBackend, gotL2 := s.gotL2 + gotL2,
           polls := if next.poller.Polling? then s.polls
                    else s.polls + [PollRecord(s.poller.sources, asked, s.gotBackend + gotBackend, s.gotL2 + gotL2,
                                               if next.poller.Running? then Some(next.poller.last) else None)],
           calls := s.calls + One(s.poller.pc == 0))
      else s
    case Resume =>
      if s.poller.Parked? && s.b.scheduled then
        s.(b := s.b.(scheduled := false), poller := Running(NO_SOURCE))
      else s
    case OutsideWake => s.(b := s.b.(scheduled := true))
  }

  function Run(s: State, trace: seq<Step>): State
    decreases |trace|
  {
    if trace == [] then s else Run(Next(s, trace[0]), trace[1..])
  }

  /** The signaller has recorded its edge and has not yet called the waker. */
  predicate OwesWake(sig: Signaller, backend: bool) {
    && sig.pc < SIGNAL_DONE
    && if backend then sig.source.backend && sig.pc >= 2 else sig.source.l2 && sig.pc >= 4
  }

  predicate SomeoneOwesWake(sigs: seq<Signaller>, backend: bool) {
    exists i :: 0 <= i < |sigs| && OwesWake(sigs[i], backend)
  }

  /** Signallers that bumped the diagnostic counter and not yet the pending counter. */
  function MidSignal(sigs: seq<Signaller>, backend: bool): nat {
    if sigs == [] then 0
    else (if backend then Increments(sigs[0], 1, sigs[0].source.backend)
          else Increments(sigs[0], 3, sigs[0].source.l2)) + MidSignal(sigs[1..], backend)
  }

  /** The runner has passed its last look at this source and saw no edge. */
  predicate SawNothing(p: Poller, backend: bool) {
    match p
    case Running(_) => false
    case Parked(sources) => if backend then sources.backend else sources.l2
    case Polling(sources, pc, ready, _, _) =>
      ready.IsEmpty() && if backend then sources.backend && pc >= 6 else sources.l2 && pc >= 7
  }

  predicate Registered(p: Poller) {
    p.Parked? || (p.Polling? && p.pc >= 2)
  }

  /** No wakeup is lost. */
  predicate WakeInv(s: State) {
    && (Registered(s.poller) ==> s.b.waker || s.b.scheduled)
    && (SawNothing(s.poller, true) && s.b.backendPending > 0 ==>
          s.b.scheduled || SomeoneOwesWake(s.sigs, true))
    && (SawNothing(s.poller, false) && s.b.l2Pending > 0 ==>
          s.b.scheduled || SomeoneOwesWake(s.sigs, false))
  }

  /** One poll takes at most one edge of each source, and only what it reports. */
  predicate TakeInv(p: Poller) {
    p.Polling? ==>
      && p.pc <= POLL_CONCLUDES
      && p.tookBackend <= 1 && (p.tookBackend == 1 <==> p.ready.backend)
      && p.tookL2 <= 1 && (p.tookL2 == 1 ==> p.ready.l2)
      && (p.pc <= 2 ==> p.ready.IsEmpty() && p.tookBackend == 0)
      && (p.pc <= 3 ==> p.tookL2 == 0)
      && (p.pc == 6 ==> p.tookL2 == 0)
      && (p.ready.backend ==> p.sources.backend)
      && (p.ready.l2 ==> p.sources.l2)
      && (p.ready.timer ==> p.sources.timer)
  }

  /** Every edge is pending, taken, or lost to saturation; none is invented. */
  predicate CountInv(pending: u32, signals: u32, sent: nat, lost: nat, taken: nat, mid: nat) {
    && taken + pending + lost == sent
    && (lost > 0 ==> sent > U32_MAX)
    && signals == SaturatingMin(sent + mid)
  }

  predicate CountsInv(s: State) {
    && CountInv(s.b.backendPending, s.b.diag.backendSignals, s.sentBackend, s.lostBackend, s.takenBackend, MidSignal(s.sigs, true))
    && CountInv(s.b.l2Pending, s.b.diag.l2Signals, s.sentL2, s.lostL2, s.takenL2, MidSignal(s.sigs, false))
  }

  predicate Inv(s: State) {
    WakeInv(s) && TakeInv(s.poller) && CountsInv(s)
  }

  lemma {:induction false} MidSignalAppend(sigs: seq<Signaller>, source: WaitSet, backend: bool)
    ensures MidSignal(sigs + [Signaller(source, 0)], backend) == MidSignal(sigs, backend)
  {
    var longer := sigs + [Signaller(source, 0)];
    if sigs == [] {
      assert longer[1..] == [];
    } else {
      assert longer[1..] == sigs[1..] + [Signaller(source, 0)];
      MidSignalAppend(sigs[1..], source, backend);
    }
  }

  lemma {:induction false} MidSignalUpdate(sigs: seq<Signaller>, i: nat, sig: Signaller, backend: bool)
    requires i < |sigs|
    ensures MidSignal(sigs[i := sig], backend) + MidSignal([sigs[i]], backend)
         == MidSignal(sigs, backend) + MidSignal([sig], backend)
  {
    var updated := sigs[i := sig];
    assert [sigs[i]][1..] == [] && [sig][1..] == [];
    if i == 0 {
      assert updated[1..] == sigs[1..];
    } else {
      assert updated[1..] == sigs[1..][i - 1 := sig];
      MidSignalUpdate(sigs[1..], i - 1, sig, backend);
    }
  }

  /** An update of one signaller keeps every other signaller's debt. */
  lemma DebtSurvives(sigs: seq<Signaller>, i: nat, sig: Signaller, backend: bool)
    requires i < |sigs|
    requires OwesWake(sigs[i], backend) ==> OwesWake(sig, backend)
    ensures SomeoneOwesWake(sigs, backend) ==> SomeoneOwesWake(sigs[i := sig], backend)
  {
    if SomeoneOwesWake(sigs, backend) {
      var k :| 0 <= k < |sigs| && OwesWake(sigs[k], backend);
      assert OwesWake(sigs[i := sig][k], backend);
    }
  }

  lemma SignalKeepsWake(s: State, i: nat, keep: bool)
    requires WakeInv(s)
    ensures WakeInv(Next(s, SignalStep(i, keep)))
  {
    if i < |s.sigs| && s.sigs[i].pc < SIGNAL_DONE {
      var sig := s.sigs[i];
      var moved := sig.(pc := sig.pc + 1);
      if sig.pc < 5 {
        DebtSurvives(s.sigs, i, moved, true);
        DebtSurvives(s.sigs, i, moved, false);
        assert s.sigs[i := moved][i] == moved;
      }
    }
  }

  /** A signaller enters and leaves the gap between its two counters. */
  lemma MidAfterStep(sigs: seq<Signaller>, i: nat)
    requires i < |sigs|
    ensures var sig := sigs[i];
            var after := sigs[i := sig.(pc := sig.pc + 1)];
            && MidSignal(after, true) == MidSignal(sigs, true)
                 + Increments(sig, 0, sig.source.backend) - Increments(sig, 1, sig.source.backend)
            && MidSignal(after, false) == MidSignal(sigs, false)
                 + Increments(sig, 2, sig.source.l2) - Increments(sig, 3, sig.source.l2)
  {
    var sig := sigs[i];
    var moved := sig.(pc := sig.pc + 1);
    assert [sig][1..] == [] && [moved][1..] == [];
    MidSignalUpdate(sigs, i, moved, true);
    MidSignalUpdate(sigs, i, moved, false);
  }

  /** One source's counters across an operation of one signaller: it bumps the
      diagnostic counter (`begins`), the pending counter (`records`) or neither. */
  lemma SourceCounts(pending: u32, signals: u32, sent: nat, lost: nat, taken: nat, mid: nat,
                     begins: bool, records: bool)
    requires CountInv(pending, signals, sent, lost, taken, mid)
    requires !(begins && records) && (records ==> mid > 0)
    ensures CountInv(if records then SaturatingIncrement(pending) else pending,
                     if begins then SaturatingIncrement(signals) else signals,
                     if records then sent + 1 else sent,
                     if records && pending == U32_MAX then lost + 1 else lost,
                     taken,
                     if begins then mid + 1 else if records then mid - 1 else mid)
  {
  }

  /** A signaller's operation as each source's counters see it. */
  lemma SignalActCounts(b: Bridge, source: WaitSet, pc: nat, keep: bool)
    ensures var next := SignalAct(b, source, pc, keep);
            && next.backendPending == (if source.backend && pc == 1 then SaturatingIncrement(b.backendPending) else b.backendPending)
            && next.diag.backendSignals
               == (if source.backend && pc == 0 then SaturatingIncrement(b.diag.backendSignals) else b.diag.backendSignals)
            && next.l2Pending == (if source.l2 && pc == 3 then SaturatingIncrement(b.l2Pending) else b.l2Pending)
            && next.diag.l2Signals
               == (if source.l2 && pc == 2 then SaturatingIncrement(b.diag.l2Signals) else b.diag.l2Signals)
  {
  }

  lemma SignalKeepsCounts(s: State, i: nat, keep: bool)
    requires CountsInv(s)
    ensures CountsInv(Next(s, SignalStep(i, keep)))
  {
    if i < |s.sigs| && s.sigs[i].pc < SIGNAL_DONE {
      SignalKeepsBackend(s, i, keep);
      SignalKeepsL2(s, i, keep);
    }
  }

  lemma SignalKeepsBackend(s: State, i: nat, keep: bool)
    requires CountsInv(s) && i < |s.sigs| && s.sigs[i].pc < SIGNAL_DONE
    ensures var next := Next(s, SignalStep(i, keep));
            CountInv(next.b.backendPending, next.b.diag.backendSignals, next.sentBackend, next.lostBackend,
                     next.takenBackend, MidSignal(next.sigs, true))
  {
    var sig := s.sigs[i];
    MidAfterStep(s.sigs, i);
    SignalActCounts(s.b, sig.source, sig.pc, keep);
    SourceCounts(s.b.backendPending, s.b.diag.backendSignals, s.sentBackend, s.lostBackend, s.takenBackend,
                 MidSignal(s.sigs, true), sig.source.backend && sig.pc == 0, sig.source.backend && sig.pc == 1);
  }

  lemma SignalKeepsL2(s: State, i: nat, keep: bool)
    requires CountsInv(s) && i < |s.sigs| && s.sigs[i].pc < SIGNAL_DONE
    ensures var next := Next(s, SignalStep(i, keep));
            CountInv(next.b.l2Pending, next.b.diag.l2Signals, next.sentL2, next.lostL2,
                     next.takenL2, MidSignal(next.sigs, false))
  {
    var sig := s.sigs[i];
    MidAfterStep(s.sigs, i);
    SignalActCounts(s.b, sig.source, sig.pc, keep);
    SourceCounts(s.b.l2Pending, s.b.diag.l2Signals, s.sentL2, s.lostL2, s.takenL2,
                 MidSignal(s.sigs, false), sig.source.l2 && sig.pc == 2, sig.source.l2 && sig.pc == 3);
  }

  /** What one of the poller's own operations may do. */
  predicate FairPollAct(b: Bridge, p: Poller, next: Pair) {
    && TakeInv(next.poller)
    && (Registered(next.poller) ==> next.bridge.waker || next.bridge.scheduled)
    && next.bridge.scheduled == b.scheduled
    && next.bridge.backendPending <= b.backendPending
    && next.bridge.l2Pending <= b.l2Pending
    && next.bridge.diag.backendSignals == b.diag.backendSignals
    && next.bridge.diag.l2Signals == b.diag.l2Signals
    && (SawNothing(next.poller, true) ==> SawNothing(p, true) || b.backendPending == 0)
    && (SawNothing(next.poller, false) ==> SawNothing(p, false) || b.l2Pending == 0)
  }

  lemma LookingIsFair(b: Bridge, p: Poller)
    requires p.Polling? && TakeInv(p) && p.pc in {2, 3, 5, 6}
    requires p.pc >= 5 ==> p.ready.IsEmpty() || p.pc == 6
    requires b.waker || b.scheduled
    ensures p.pc in {2, 5} ==> FairPollAct(b, p, TakeBackend(b, p))
    ensures p.pc in {3, 6} ==> FairPollAct(b, p, TakeL2(b, p))
  {
  }

  lemma PollActIsFair(b: Bridge, p: Poller, rx: bool, timer: bool)
    requires p.Polling? && TakeInv(p)
    requires p.pc >= 2 ==> b.waker || b.scheduled
    ensures FairPollAct(b, p, PollAct(b, p, rx, timer))
  {
    if p.pc in {2, 3, 6} || (p.pc == 5 && p.ready.IsEmpty()) {
      LookingIsFair(b, p);
    }
  }

  lemma PollKeepsInv(s: State, rx: bool, timer: bool)
    requires Inv(s)
    ensures Inv(Next(s, PollStep(rx, timer)))
  {
    if s.poller.Polling? {
      PollActIsFair(s.b, s.poller, rx, timer);
    }
  }

  lemma StepKeepsInv(s: State, step: Step)
    requires Inv(s)
    ensures Inv(Next(s, step))
  {
    match step
    case NewSignal(source) =>
      MidSignalAppend(s.sigs, source, true);
      MidSignalAppend(s.sigs, source, false);
      var next := Next(s, step);
      forall backend | SomeoneOwesWake(s.sigs, backend)
        ensures SomeoneOwesWake(next.sigs, backend)
      {
        var k :| 0 <= k < |s.sigs| && OwesWake(s.sigs[k], backend);
        assert OwesWake(next.sigs[k], backend);
      }
    case SignalStep(i, keep) =>
      SignalKeepsWake(s, i, keep);
      SignalKeepsCounts(s, i, keep);
    case PollStep(rx, timer) => PollKeepsInv(s, rx, timer);
    case _ =>
  }

  lemma {:induction false} RunKeepsInv(s: State, trace: seq<Step>)
    requires Inv(s)
    ensures Inv(Run(s, trace))
    decreases |trace|
  {
    if trace == [] {
    } else {
      StepKeepsInv(s, trace[0]);
      RunKeepsInv(Next(s, trace[0]), trace[1..]);
    }
  }

  /** In every interleaving a parked runner can still be reached: a waker is
      registered or it is queued already; and a subscribed edge leaves it queued
      or leaves a signaller that has yet to call the waker.  Once no signaller is
      in flight the edge has therefore queued the runner. */
  lemma NoLostWakeup(trace: seq<Step>)
    ensures var s := Run(Init(), trace);
            s.poller.Parked? ==>
              && (s.b.waker || s.b.scheduled)
              && ((s.poller.sources.backend && s.b.backendPending > 0) ==>
                    s.b.scheduled || SomeoneOwesWake(s.sigs, true))
              && ((s.poller.sources.l2 && s.b.l2Pending > 0) ==>
                    s.b.scheduled || SomeoneOwesWake(s.sigs, false))
  {
    RunKeepsInv(Init(), trace);
  }

  /** Edges are conserved in every interleaving: each was taken, is pending, or
      met a saturated counter, which cannot happen before `u32::MAX` were sent.
      The diagnostic counter is the saturated number of signals begun. */
  lemma EdgesConserved(trace: seq<Step>)
    ensures var s := Run(Init(), trace);
            && s.takenBackend + s.b.backendPending + s.lostBackend == s.sentBackend
            && s.takenL2 + s.b.l2Pending + s.lostL2 == s.sentL2
            && (s.sentBackend <= U32_MAX ==> s.lostBackend == 0)
            && (s.sentL2 <= U32_MAX ==> s.lostL2 == 0)
            && s.b.diag.backendSignals == SaturatingMin(s.sentBackend + MidSignal(s.sigs, true))
            && s.b.diag.l2Signals == SaturatingMin(s.sentL2 + MidSignal(s.sigs, false))
  {
    RunKeepsInv(Init(), trace);
  }

  /** Inside any poll of any interleaving at most one edge of each source is
      consumed, and a consumed edge is reported by that same poll. */
  lemma OnePollOneEdge(trace: seq<Step>)
    ensures var p := Run(Init(), trace).poller;
            p.Polling? ==>
              && p.tookBackend <= 1 && (p.tookBackend == 1 <==> p.ready.backend)
              && p.tookL2 <= 1 && (p.tookL2 == 1 ==> p.ready.l2)
              && (p.ready.backend ==> p.sources.backend) && (p.ready.l2 ==> p.sources.l2)
  {
    RunKeepsInv(Init(), trace);
  }

  // ----- what polls answer -----

  /** A poll reports exactly the sources it was asked about that had an edge it took, a
      queued frame or an elapsed deadline, and is pending exactly when there was none. */
  predicate GoodPoll(r: PollRecord) {
    var ready := WaitSet(r.gotBackend == 1, r.gotL2 == 1 || (r.sources.l2 && r.asked.rx),
                         r.sources.timer && r.asked.timer);
    && r.gotBackend <= One(r.sources.backend) && r.gotL2 <= One(r.sources.l2)
    && r.result == if ready.IsEmpty() then None else Some(ready)
  }

  /** The current poll so far. */
  predicate MidPoll(s: State) {
    s.poller.Polling? ==>
      var p := s.poller;
      && s.gotBackend == p.tookBackend && s.gotL2 == p.tookL2
      && (p.pc <= 4 ==> (p.ready.l2 <==> p.tookL2 == 1) && !p.ready.timer)
      && (p.pc >= 5 ==> (p.ready.l2 <==> p.tookL2 == 1 || (p.sources.l2 && s.asked.rx))
                        && (p.ready.timer <==> p.sources.timer && s.asked.timer))
  }

  predicate GoodPolls(s: State) {
    forall i :: 0 <= i < |s.polls| ==> GoodPoll(s.polls[i])
  }

  function CountPolls(polls: seq<PollRecord>, kind: PollRecord -> bool): nat {
    if polls == [] then 0 else CountPolls(polls[..|polls| - 1], kind) + One(kind(polls[|polls| - 1]))
  }

  function WasPending(): PollRecord -> bool { (r: PollRecord) => r.result.None? }
  function WasReady(): PollRecord -> bool { (r: PollRecord) => r.result.Some? }
  function WasTimer(): PollRecord -> bool { (r: PollRecord) => r.result.Some? && r.result.value.timer }

  predicate DiagnosticsInv(s: State) {
    && s.b.diag.wakerNotifications == SaturatingMin(s.notified)
    && PollCounts(s.b.diag, s.calls, s.polls)
  }

  predicate PollCounts(d: Diagnostics, calls: nat, polls: seq<PollRecord>) {
    && d.pollCalls == SaturatingMin(calls)
    && d.pendingPolls == SaturatingMin(CountPolls(polls, WasPending()))
    && d.readyPolls == SaturatingMin(CountPolls(polls, WasReady()))
    && d.timerReadyPolls == SaturatingMin(CountPolls(polls, WasTimer()))
  }

  lemma CountOneMore(polls: seq<PollRecord>, r: PollRecord, kind: PollRecord -> bool)
    ensures CountPolls(polls + [r], kind) == CountPolls(polls, kind) + One(kind(r))
  {
    assert (polls + [r])[..|polls|] == polls;
  }

  lemma PollStepKeepsPolls(s: State, rx: bool, timer: bool)
    requires TakeInv(s.poller) && MidPoll(s) && GoodPolls(s)
    ensures MidPoll(Next(s, PollStep(rx, timer))) && GoodPolls(Next(s, PollStep(rx, timer)))
  {
  }

  lemma PollEnds(d: Diagnostics, calls: nat, polls: seq<PollRecord>, r: PollRecord)
    requires PollCounts(d, calls, polls)
    ensures PollCounts(d.(pendingPolls := SaturatingMin(d.pendingPolls + One(r.result.None?)),
                          readyPolls := SaturatingMin(d.readyPolls + One(r.result.Some?)),
                          timerReadyPolls := SaturatingMin(d.timerReadyPolls + One(r.result.Some? && r.result.value.timer))),
                       calls, polls + [r])
  {
    CountOneMore(polls, r, WasPending());
    CountOneMore(polls, r, WasReady());
    CountOneMore(polls, r, WasTimer());
  }

  /** What one of the poller's operations counts. */
  lemma PollActDiagnostics(b: Bridge, p: Poller, rx: bool, timer: bool)
    requires p.Polling? && p.pc <= POLL_CONCLUDES
    ensures var next := PollAct(b, p, rx, timer);
            if next.poller.Polling? then next.bridge.diag == b.diag.(pollCalls := SaturatingMin(b.diag.pollCalls + One(p.pc == 0)))
            else
              && p.pc == POLL_CONCLUDES
              && next.bridge.diag
                 == b.diag.(pendingPolls := SaturatingMin(b.diag.pendingPolls + One(next.poller.Parked?)),
                            readyPolls := SaturatingMin(b.diag.readyPolls + One(next.poller.Running?)),
                            timerReadyPolls := SaturatingMin(b.diag.timerReadyPolls
                                                             + One(next.poller.Running? && next.poller.last.timer)))
  {
  }

  lemma PollStepKeepsDiagnostics(s: State, rx: bool, timer: bool)
    requires DiagnosticsInv(s) && TakeInv(s.poller)
    ensures DiagnosticsInv(Next(s, PollStep(rx, timer)))
  {
    if s.poller.Polling? {
      var next := Next(s, PollStep(rx, timer));
      PollActDiagnostics(s.b, s.poller, rx, timer);
      if !next.poller.Polling? {
        var r := next.polls[|s.polls|];
        assert next.polls == s.polls + [r] && next.calls == s.calls;
        PollEnds(s.b.diag, s.calls, s.polls, r);
      } else {
        assert next.polls == s.polls;
      }
    }
  }

  lemma StepKeepsPolls(s: State, step: Step)
    requires Inv(s) && MidPoll(s) && GoodPolls(s) && DiagnosticsInv(s)
    ensures MidPoll(Next(s, step)) && GoodPolls(Next(s, step)) && DiagnosticsInv(Next(s, step))
  {
    match step
    case PollStep(rx, timer) =>
      PollStepKeepsPolls(s, rx, timer);
      PollStepKeepsDiagnostics(s, rx, timer);
    case SignalStep(i, keep) => SignalStepKeepsPolls(s, i, keep);
    case _ => OtherStepKeepsPolls(s, step);
  }

  lemma SignalStepKeepsPolls(s: State, i: nat, keep: bool)
    requires MidPoll(s) && GoodPolls(s) && DiagnosticsInv(s)
    ensures var t := Next(s, SignalStep(i, keep)); MidPoll(t) && GoodPolls(t) && DiagnosticsInv(t)
  {
    if i < |s.sigs| && s.sigs[i].pc < SIGNAL_DONE {
      SignalActDiagnostics(s.b, s.sigs[i].source, s.sigs[i].pc, keep, s.calls, s.polls);
    }
  }

  lemma SignalActDiagnostics(b: Bridge, source: WaitSet, pc: nat, keep: bool, calls: nat, polls: seq<PollRecord>)
    requires PollCounts(b.diag, calls, polls)
    ensures PollCounts(SignalAct(b, source, pc, keep).diag, calls, polls)
    ensures SignalAct(b, source, pc, keep).diag.wakerNotifications == SaturatingMin(b.diag.wakerNotifications + One(pc == 4))
  {
  }

  lemma OtherStepKeepsPolls(s: State, step: Step)
    requires MidPoll(s) && GoodPolls(s) && DiagnosticsInv(s) && !step.PollStep? && !step.SignalStep?
    ensures var t := Next(s, step); MidPoll(t) && GoodPolls(t) && DiagnosticsInv(t)
  {
    var t := Next(s, step);
    assert t.polls == s.polls && t.b.diag == s.b.diag && t.calls == s.calls && t.notified == s.notified;
  }

  lemma {:induction false} RunKeepsPolls(s: State, trace: seq<Step>)
    requires Inv(s) && MidPoll(s) && GoodPolls(s) && DiagnosticsInv(s)
    ensures GoodPolls(Run(s, trace)) && DiagnosticsInv(Run(s, trace))
    decreases |trace|
  {
    if trace == [] {
    } else {
      StepKeepsInv(s, trace[0]);
      StepKeepsPolls(s, trace[0]);
      RunKeepsPolls(Next(s, trace[0]), trace[1..]);
    }
  }

  /** In every interleaving each poll that ended answered exactly what it found, and the
      diagnostics count the polls begun, pending, ready and timed out, and the wakers
      called. */
  lemma PollsAnswerExactly(trace: seq<Step>)
    ensures GoodPolls(Run(Init(), trace)) && DiagnosticsInv(Run(Init(), trace))
  {
    RunKeepsPolls(Init(), trace);
  }

  // ----- calls with nothing in between -----

  /** The rest of signaller `i`'s call. */
  function FinishSignal(s: State, i: nat, keep: bool): State
    requires i < |s.sigs|
    decreases SIGNAL_DONE - s.sigs[i].pc
  {
    if s.sigs[i].pc >= SIGNAL_DONE then s else FinishSignal(Next(s, SignalStep(i, keep)), i, keep)
  }

  lemma {:induction false} FinishSignalRuns(s: State, i: nat, keep: bool)
    requires i < |s.sigs|
    ensures var t := FinishSignal(s, i, keep);
            && t.b == RunSignal(s.b, s.sigs[i].source, s.sigs[i].pc, keep)
            && |t.sigs| == |s.sigs| && t.poller == s.poller && t.polls == s.polls
    decreases SIGNAL_DONE - s.sigs[i].pc
  {
    if s.sigs[i].pc >= SIGNAL_DONE {
    } else {
      FinishSignalRuns(Next(s, SignalStep(i, keep)), i, keep);
    }
  }

  /** A signaller that comes and finishes has the effect of the whole call. */
  function WholeSignal(s: State, source: WaitSet, keep: bool): State {
    FinishSignal(Next(s, NewSignal(source)), |s.sigs|, keep)
  }

  lemma WholeSignalRuns(s: State, source: WaitSet, keep: bool)
    ensures var t := WholeSignal(s, source, keep);
            t.b == RunSignal(s.b, source, 0, keep) && t.poller == s.poller && t.polls == s.polls
  {
    FinishSignalRuns(Next(s, NewSignal(source)), |s.sigs|, keep);
  }

  function PollSteps(s: State, rx: bool, timer: bool, n: nat): State
    decreases n
  {
    if n == 0 then s else PollSteps(Next(s, PollStep(rx, timer)), rx, timer, n - 1)
  }

  /** A whole `poll_ready`: eight operations, one fewer when the first look finds
      something; a step after the end does nothing. */
  function WholePoll(s: State, sources: WaitSet, rx: bool, timer: bool): State {
    PollSteps(Next(s, BeginPoll(sources)), rx, timer, 8)
  }

  lemma OnePollStep(s: State, rx: bool, timer: bool)
    requires s.poller.Polling?
    ensures var t := Next(s, PollStep(rx, timer));
            Pair(t.b, t.poller) == PollAct(s.b, s.poller, rx, timer)
  {
  }

  lemma FirstFivePollSteps(s: State, rx: bool, timer: bool, sources: WaitSet)
    requires s.poller == Enter(sources)
    ensures var t := Next(Next(Next(Next(Next(s, PollStep(rx, timer)), PollStep(rx, timer)), PollStep(rx, timer)),
                               PollStep(rx, timer)), PollStep(rx, timer));
            Pair(t.b, t.poller) == FirstLook(s.b, sources, rx, timer)
  {
    var step := PollStep(rx, timer);
    var s1 := Next(s, step);
    var s2 := Next(s1, step);
    var s3 := Next(s2, step);
    var s4 := Next(s3, step);
    OnePollStep(s, rx, timer);
    OnePollStep(s1, rx, timer);
    OnePollStep(s2, rx, timer);
    OnePollStep(s3, rx, timer);
    OnePollStep(s4, rx, timer);
    FirstLookRuns(s.b, sources, rx, timer);
  }

  lemma LastThreePollSteps(s: State, rx: bool, timer: bool)
    requires s.poller.Polling? && s.poller.pc == 5
    ensures var t := Next(Next(Next(s, PollStep(rx, timer)), PollStep(rx, timer)), PollStep(rx, timer));
            Pair(t.b, t.poller) == SecondLook(s.b, s.poller)
  {
    var step := PollStep(rx, timer);
    var s1 := Next(s, step);
    var s2 := Next(s1, step);
    OnePollStep(s, rx, timer);
    OnePollStep(s1, rx, timer);
    SecondLookRuns(s.b, s.poller, rx, timer);
    if s2.poller.Polling? {
      OnePollStep(s2, rx, timer);
    }
  }

  lemma WholePollRuns(s: State, sources: WaitSet, rx: bool, timer: bool)
    requires s.poller.Running?
    ensures var t := WholePoll(s, sources, rx, timer);
            Pair(t.b, t.poller) == PollOnce(s.b, sources, rx, timer)
  {
    var step := PollStep(rx, timer);
    var s0 := Next(s, BeginPoll(sources));
    var s5 := Next(Next(Next(Next(Next(s0, step), step), step), step), step);
    FirstFivePollSteps(s0, rx, timer, sources);
    LastThreePollSteps(s5, rx, timer);
    PollOnceIsTwoLooks(s.b, sources, rx, timer);
    var s8 := Next(Next(Next(s5, step), step), step);
    assert PollSteps(s5, rx, timer, 3) == s8 by {
      assert PollSteps(s8, rx, timer, 0) == s8;
      assert PollSteps(Next(Next(s5, step), step), rx, timer, 1) == s8;
    }
    EightIsFiveAndThree(s0, rx, timer);
  }

  lemma EightIsFiveAndThree(s: State, rx: bool, timer: bool)
    ensures var step := PollStep(rx, timer);
            PollSteps(s, rx, timer, 8) == PollSteps(Next(Next(Next(Next(Next(s, step), step), step), step), step), rx, timer, 3)
  {
    var step := PollStep(rx, timer);
    var s2 := Next(Next(s, step), step);
    var s4 := Next(Next(s2, step), step);
    assert PollSteps(s, rx, timer, 8) == PollSteps(s2, rx, timer, 6);
    assert PollSteps(s2, rx, timer, 6) == PollSteps(s4, rx, timer, 4);
  }

  /** One turn of the wheel from any reachable state in which the runner is parked: a
      signal of a source schedules it, the executor runs it once for that, and its next
      poll of that source reports it.  Nobody else runs an unscheduled runner, and a
      wake-up from outside does. */
  lemma SignalWakesAndAnswers(s: State, source: WaitSet, keep: bool, sources: WaitSet, rx: bool, timer: bool)
    requires Inv(s) && s.poller.Parked?
    ensures var resumed := Next(WholeSignal(s, source, keep), Resume);
            var t := WholePoll(resumed, sources, rx, timer);
            && resumed.poller.Running? && !resumed.b.scheduled
            && (source.backend && sources.backend ==> t.poller.Running? && t.poller.last.backend)
            && (source.l2 && sources.l2 ==> t.poller.Running? && t.poller.last.l2)
    ensures !s.b.scheduled ==> Next(s, Resume) == s
    ensures Next(Next(s, OutsideWake), Resume).poller.Running?
  {
    WholeSignalRuns(s, source, keep);
    SignalEffect(s.b, source, keep);
    var resumed := Next(WholeSignal(s, source, keep), Resume);
    WholePollRuns(resumed, sources, rx, timer);
  }
}
