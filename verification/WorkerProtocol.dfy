/** The whole runner/worker protocol: proxy calls of the one runner, turns of
    the one worker, the counting semaphore between them, the wake bridge, and
    spurious semaphore releases and callback signals from outside, interleaved
    one critical section, semaphore operation or scan-entry access at a time. */
module WorkerProtocol {
  import opened Common
  import W = WaitBridge
  import opened WorkerMailbox

  datatype Write = Write(index: nat, entry: ScanEntry)

  datatype Worker =
    | Sleeping
    | Woken
    | Turn(cancel: Option<OperationId>, command: Option<Command>, previous: Option<OperationId>,
           injected: Option<OperationId>)
    | Writing(previous: Option<OperationId>, id: OperationId, writes: seq<Write>, result: PollResult)
    | Finished(previous: Option<OperationId>, response: Option<Response>)
    | Published
    | Signalling(i: nat)

  datatype Runner =
    | Free
    | Draining(id: OperationId, room: nat)
    | Copying(id: OperationId, room: nat, response: Response, count: nat, copied: seq<ScanEntry>)
    | Submitting(command: Command)
    | Releasing   // command or cancellation stored, semaphore not yet released

  /** A response handed to the caller of `poll(asked)`; for a finished scan also
      the caller's room, the copied entries and the writes behind them. */
  datatype Delivery = Delivery(asked: OperationId, response: Response, room: nat,
                               copied: seq<ScanEntry>, log: seq<Write>)

  /** `log` holds the backend's scan writes since the last scan start, `sealed`
      the log at the last publication.  `owed` is set by a waiting report, an
      accepted start or a cancellation, and cleared only by consuming a backend
      edge.  `drained` counts responses the current poll call took. */
  datatype Sys = Sys(
    w: W.State,
    m: Mailbox,
    sem: nat,
    worker: Worker,
    runner: Runner,
    scan: seq<ScanEntry>,
    owed: bool,
    log: seq<Write>,
    sealed: seq<Write>,
    drained: nat,
    published: nat,
    mismatched: nat,
    delivered: seq<Delivery>)

  datatype Step =
    // runner
    | CallStart(id: OperationId, request: Request)
    | CallPoll(id: OperationId, room: nat)
    | CallCancel(id: OperationId)
    | Drain
    | CopyOne
    | EndCopy
    | Submit
    | Release
    // worker
    | Down
    | TakeWork
    | Execute(ok: bool, result: PollResult, writes: seq<Write>)
    | WriteOne
    | EndPoll
    | PublishTurn(deadline: Option<nat>)
    | BeginSignal
    | Sleep
    // wake bridge and environment
    | Wait(step: W.Step)
    | SpuriousRelease
    | ArmInjection

  function EmptyScan(): seq<ScanEntry> {
    seq(SCAN_CAPACITY, _ => EMPTY_ENTRY)
  }

  function Store(scan: seq<ScanEntry>, write: Write): seq<ScanEntry> {
    if write.index < |scan| then scan[write.index := write.entry] else scan
  }

  /** The scan storage a log of writes leaves behind. */
  function Replay(log: seq<Write>): (r: seq<ScanEntry>)
    ensures |r| == SCAN_CAPACITY
  {
    if log == [] then EmptyScan() else Store(Replay(log[..|log| - 1]), log[|log| - 1])
  }

  function Init(): Sys {
    Sys(W.Init(), NewMailbox(), 0, Sleeping, Free, EmptyScan(), false, [], [], 0, 0, 0, [])
  }

  /** The runner may enter a call: it is in none and not inside `poll_ready`. */
  predicate CanCall(s: Sys) {
    s.runner.Free? && s.w.poller.Running?
  }

  function Deliver(s: Sys, asked: OperationId, response: Response, room: nat, copied: seq<ScanEntry>): Sys {
    s.(runner := if response == Started(asked, true) then Submitting(Poll(asked)) else Free,
       delivered := s.delivered + [Delivery(asked, response, room, copied, s.sealed)])
  }

  function DrainStep(s: Sys): Sys
    requires s.runner.Draining?
  {
    var taken := TakeResponse(s.m, s.runner.id, s.runner.room);
    var after := s.(m := taken.mailbox, drained := s.drained + if taken.response.Some? then 1 else 0);
    match taken.response
    case None => after.(runner := Submitting(Poll(s.runner.id)))
    case Some(r) =>
      if r.id != s.runner.id then after.(mismatched := s.mismatched + 1)
      else if taken.copyCount.Some? then
        after.(runner := Copying(s.runner.id, s.runner.room, r, taken.copyCount.value, []))
      else Deliver(after, s.runner.id, r, s.runner.room, [])
  }

  function SubmitStep(s: Sys): Sys
    requires s.runner.Submitting?
  {
    if CanAccept(s.m) then
      s.(m := s.m.(command := Some(s.runner.command)), runner := Releasing)
    else
      s.(runner := Free, owed := s.owed || s.runner.command.Poll?)
  }

  function ExecuteStep(s: Sys, ok: bool, result: PollResult, writes: seq<Write>): Sys
    requires s.worker.Turn?
  {
    var t := s.worker;
    match t.command
    case None => s.(worker := Finished(t.previous, None))
    case Some(Start(id, request)) =>
      var done := s.(worker := Finished(t.previous, Some(Started(id, ok))));
      if request.Scan? then done.(scan := EmptyScan(), log := []) else done
    case Some(Poll(id)) =>
      if t.injected.Some? then
        s.(worker := Finished(t.previous, Some(Polled(t.injected.value, CompleteOther))))
      else s.(worker := Writing(t.previous, id, writes, result))
  }

  /** A bridge step.  Only a runner outside every proxy call enters
      `poll_ready`; consuming a backend edge settles what it is owed. */
  function WaitStep(s: Sys, step: W.Step): Sys {
    if step.BeginPoll? && !s.runner.Free? then s
    else
      var next := W.Next(s.w, step);
      s.(w := next, owed := s.owed && next.takenBackend == s.w.takenBackend)
  }

  /** One step of the whole system; a step that is not enabled changes nothing. */
  function Next(s: Sys, step: Step): Sys {
    match step
    case CallStart(id, request) => if CanCall(s) then s.(runner := Submitting(Start(id, request))) else s
    case CallPoll(id, room) => if CanCall(s) then s.(runner := Draining(id, room), drained := 0) else s
    case CallCancel(id) =>
      if CanCall(s) then s.(m := s.m.(cancellation := Some(id)), runner := Releasing) else s
    case Drain => if s.runner.Draining? then DrainStep(s) else s
    case CopyOne =>
      if s.runner.Copying? && |s.runner.copied| < s.runner.count && s.runner.count <= |s.scan| then
        s.(runner := s.runner.(copied := s.runner.copied + [s.scan[|s.runner.copied|]]))
      else s
    case EndCopy =>
      if s.runner.Copying? && |s.runner.copied| >= s.runner.count then
        Deliver(s.(m := s.m.(workerBusy := false)), s.runner.id, s.runner.response, s.runner.room, s.runner.copied)
      else s
    case Submit => if s.runner.Submitting? then SubmitStep(s) else s
    case Release => if s.runner.Releasing? then s.(sem := s.sem + 1, runner := Free, owed := true) else s
    case Down => if s.worker.Sleeping? && s.sem > 0 then s.(sem := s.sem - 1, worker := Woken) else s
    case TakeWork =>
      if s.worker.Woken? then
        var work := WorkerTake(s.m);
        s.(m := work.mailbox, worker := Turn(work.cancel, work.command, work.previous, work.injected))
      else s
    case Execute(ok, result, writes) => if s.worker.Turn? then ExecuteStep(s, ok, result, writes) else s
    case WriteOne =>
      if s.worker.Writing? && s.worker.writes != [] then
        s.(scan := Store(s.scan, s.worker.writes[0]), log := s.log + [s.worker.writes[0]],
           worker := s.worker.(writes := s.worker.writes[1..]))
      else s
    case EndPoll =>
      if s.worker.Writing? && s.worker.writes == [] then
        s.(worker := Finished(s.worker.previous, Some(Polled(s.worker.id, s.worker.result))))
      else s
    case PublishTurn(deadline) =>
      if s.worker.Finished? then
        var m := Publish(s.m, s.worker.previous, s.worker.response, deadline);
        if s.worker.response.Some? then
          s.(m := m, worker := Published, published := s.published + 1, sealed := s.log)
        else s.(m := m, worker := Published)
      else s
    case BeginSignal =>
      if s.worker.Published? then
        s.(w := W.Next(s.w, W.NewSignal(W.BACKEND)), worker := Signalling(|s.w.sigs|))
      else s
    case Sleep =>
      if s.worker.Signalling? && s.worker.i < |s.w.sigs| && s.w.sigs[s.worker.i].pc >= W.SIGNAL_DONE then
        s.(worker := Sleeping)
      else s
    case Wait(wait) => WaitStep(s, wait)
    case SpuriousRelease => s.(sem := s.sem + 1)
    case ArmInjection => s.(m := Arm(s.m))
  }

  function Run(s: Sys, trace: seq<Step>): Sys
    decreases |trace|
  {
    if trace == [] then s else Run(Next(s, trace[0]), trace[1..])
  }

  // ----- the token -----

  /** The worker owns a command it has taken and not yet answered in the mailbox. */
  predicate WorkerHolds(worker: Worker) {
    match worker
    case Turn(_, command, _, _) => command.Some?
    case Writing(_, _, _, _) => true
    case Finished(_, response) => response.Some?
    case _ => false
  }

  function Tokens(s: Sys): nat {
    One(s.m.command.Some?) + One(WorkerHolds(s.worker)) + One(s.m.response.Some?) + One(s.runner.Copying?)
  }

  /** The worker may be writing scan storage. */
  predicate TouchesScan(worker: Worker) {
    match worker
    case Turn(_, command, _, injected) =>
      command.Some? && match command.value { case Start(_, request) => request.Scan? case Poll(_) => injected.None? }
    case Writing(_, _, _, _) => true
    case _ => false
  }

  predicate InTurn(worker: Worker) {
    worker.Turn? || worker.Writing? || worker.Finished?
  }

  function Previous(worker: Worker): Option<OperationId>
    requires InTurn(worker)
  {
    worker.previous
  }

  predicate TokenInv(s: Sys) {
    && Tokens(s) <= 1
    && s.drained <= 1
    && (s.runner.Draining? && s.drained == 1 ==> Tokens(s) == 0)
    && (WorkerHolds(s.worker) ==> s.m.workerBusy)
    && (s.m.workerBusy ==> InTurn(s.worker) || s.runner.Copying?)
    && (InTurn(s.worker) ==> Previous(s.worker) == s.m.active)
    && (s.m.deadline.Some? ==> s.m.active.Some?)
  }

  // ----- scan storage and deliveries -----

  predicate GoodDelivery(d: Delivery) {
    && d.response.id == d.asked
    && d.copied == (if ScanDone(d.response)
                    then Replay(d.log)[..Min(Min(d.response.result.count, d.room), SCAN_CAPACITY)] else [])
  }

  /** The storage is what the log says; nobody writes while a response is out. */
  predicate StorageInv(s: Sys) {
    && |s.scan| == SCAN_CAPACITY
    && s.scan == Replay(s.log)
    && (s.m.response.Some? || s.runner.Copying? ==> s.log == s.sealed)
    && (s.runner.Copying? ==>
          && s.runner.response.id == s.runner.id && ScanDone(s.runner.response)
          && s.runner.count == Min(Min(s.runner.response.result.count, s.runner.room), SCAN_CAPACITY)
          && |s.runner.copied| <= s.runner.count
          && s.runner.copied == s.scan[..|s.runner.copied|])
  }

  predicate DeliveryInv(delivered: seq<Delivery>) {
    forall i :: 0 <= i < |delivered| ==> GoodDelivery(delivered[i])
  }

  /** Every published response was delivered, dropped as stale, or is still out. */
  predicate CountInv(s: Sys) {
    && s.published == |s.delivered| + s.mismatched + One(s.m.response.Some?) + One(s.runner.Copying?)
    && s.m.staleDropped == W.SaturatingMin(s.mismatched)
  }

  predicate ScanInv(s: Sys) {
    StorageInv(s) && DeliveryInv(s.delivered) && CountInv(s)
  }

  // ----- wakeups -----

  /** The worker is on its way to a backend signal it has not recorded yet. */
  predicate WillSignal(s: Sys) {
    match s.worker
    case Sleeping => false
    case Signalling(i) => i < |s.w.sigs| && s.w.sigs[i].pc < 2
    case _ => true
  }

  /** Something will make, or has made, a backend edge for the runner. */
  predicate Live(s: Sys) {
    s.w.b.backendPending > 0 || s.sem > 0 || WillSignal(s) || s.runner.Releasing?
  }

  predicate WakeInv(s: Sys) {
    && W.Inv(s.w)
    && (!s.runner.Free? ==> s.w.poller.Running?)
    && (s.worker.Signalling? ==> s.worker.i < |s.w.sigs| && s.w.sigs[s.worker.i].source == W.BACKEND)
    && (s.m.command.Some? || s.m.cancellation.Some? ==> s.sem > 0 || s.worker.Woken? || s.runner.Releasing?)
    && (s.owed ==> Live(s))
    && (s.runner.Submitting? && s.runner.command.Poll? && s.m.response.Some? ==> Live(s))
  }

  predicate Inv(s: Sys) {
    TokenInv(s) && ScanInv(s) && WakeInv(s)
  }

  // ----- every step keeps the invariants -----

  predicate Calls(step: Step) {
    step.CallStart? || step.CallPoll? || step.CallCancel? || step.Release? || step.SpuriousRelease?
    || step.ArmInjection? || step.Wait?
  }

  predicate Exchanges(step: Step) {
    step.Drain? || step.CopyOne? || step.EndCopy? || step.Submit?
  }

  predicate Works(step: Step) {
    step.Down? || step.TakeWork? || step.Execute? || step.WriteOne? || step.EndPoll?
    || step.PublishTurn? || step.BeginSignal? || step.Sleep?
  }

  lemma TokenCalls(s: Sys, step: Step)
    requires TokenInv(s) && Calls(step)
    ensures TokenInv(Next(s, step))
  {
  }

  lemma TokenDrain(s: Sys)
    requires TokenInv(s) && s.runner.Draining?
    ensures TokenInv(DrainStep(s))
  {
  }

  lemma TokenExchanges(s: Sys, step: Step)
    requires TokenInv(s) && Exchanges(step)
    ensures TokenInv(Next(s, step))
  {
    if step.Drain? && s.runner.Draining? {
      TokenDrain(s);
    }
  }

  lemma TokenTurns(s: Sys, step: Step)
    requires TokenInv(s) && (step.TakeWork? || step.PublishTurn?)
    ensures TokenInv(Next(s, step))
  {
  }

  lemma TokenTurnSteps(s: Sys, step: Step)
    requires TokenInv(s) && Works(step) && !step.TakeWork? && !step.PublishTurn?
    ensures TokenInv(Next(s, step))
  {
    assert Next(s, step).m == s.m && Next(s, step).runner == s.runner && Next(s, step).drained == s.drained;
  }

  lemma TokenWorks(s: Sys, step: Step)
    requires TokenInv(s) && Works(step)
    ensures TokenInv(Next(s, step))
  {
    if step.TakeWork? || step.PublishTurn? {
      TokenTurns(s, step);
    } else {
      TokenTurnSteps(s, step);
    }
  }

  lemma ReplayExtends(log: seq<Write>, write: Write)
    ensures Replay(log + [write]) == Store(Replay(log), write)
  {
    var longer := log + [write];
    assert longer[..|longer| - 1] == log;
  }

  lemma ScanCalls(s: Sys, step: Step)
    requires ScanInv(s) && Calls(step)
    ensures ScanInv(Next(s, step))
  {
  }

  lemma CountDrain(s: Sys)
    requires CountInv(s) && s.runner.Draining?
    ensures CountInv(DrainStep(s))
  {
  }

  lemma CountExchanges(s: Sys, step: Step)
    requires CountInv(s) && Exchanges(step)
    ensures CountInv(Next(s, step))
  {
    if step.Drain? && s.runner.Draining? {
      CountDrain(s);
    }
  }

  lemma CountWorks(s: Sys, step: Step)
    requires CountInv(s) && TokenInv(s) && Works(step)
    ensures CountInv(Next(s, step))
  {
  }

  lemma StorageExchanges(s: Sys, step: Step)
    requires StorageInv(s) && Exchanges(step)
    ensures StorageInv(Next(s, step))
  {
  }

  lemma DeliveryExchanges(s: Sys, step: Step)
    requires StorageInv(s) && DeliveryInv(s.delivered) && Exchanges(step)
    ensures DeliveryInv(Next(s, step).delivered)
  {
    var next := Next(s, step);
    if |next.delivered| > |s.delivered| {
      var d := next.delivered[|s.delivered|];
      assert next.delivered == s.delivered + [d];
      assert GoodDelivery(d);
    }
  }

  lemma StorageWorks(s: Sys, step: Step)
    requires TokenInv(s) && StorageInv(s) && Works(step)
    ensures StorageInv(Next(s, step))
  {
    if step.WriteOne? {
      StorageWrites(s);
    } else if step.Execute? {
      StorageExecutes(s, step);
    } else {
      StorageStays(s, step);
    }
  }

  lemma StorageWrites(s: Sys)
    requires TokenInv(s) && StorageInv(s)
    ensures StorageInv(Next(s, WriteOne))
  {
    if s.worker.Writing? && s.worker.writes != [] {
      ReplayExtends(s.log, s.worker.writes[0]);
    }
  }

  lemma StorageExecutes(s: Sys, step: Step)
    requires TokenInv(s) && StorageInv(s) && step.Execute?
    ensures StorageInv(Next(s, step))
  {
  }

  lemma StorageStays(s: Sys, step: Step)
    requires TokenInv(s) && StorageInv(s) && Works(step) && !step.WriteOne? && !step.Execute?
    ensures StorageInv(Next(s, step))
  {
  }

  lemma WakeBridge(s: Sys, step: W.Step)
    requires WakeInv(s)
    ensures WakeInv(Next(s, Wait(step)))
  {
    W.StepKeepsInv(s.w, step);
  }

  lemma WakeCalls(s: Sys, step: Step)
    requires WakeInv(s) && Calls(step)
    ensures WakeInv(Next(s, step))
  {
    if step.Wait? {
      WakeBridge(s, step.step);
    }
  }

  lemma WakeDrain(s: Sys)
    requires WakeInv(s) && s.runner.Draining?
    ensures WakeInv(DrainStep(s))
  {
    var next := DrainStep(s);
    assert next.w == s.w && next.worker == s.worker && next.sem == s.sem;
    assert next.m.response.None? && next.m.command == s.m.command && next.m.cancellation == s.m.cancellation;
  }

  lemma WakeSubmit(s: Sys)
    requires TokenInv(s) && WakeInv(s) && s.runner.Submitting?
    ensures WakeInv(SubmitStep(s))
  {
  }

  lemma WakeExchanges(s: Sys, step: Step)
    requires TokenInv(s) && WakeInv(s) && Exchanges(step)
    ensures WakeInv(Next(s, step))
  {
    if step.Drain? && s.runner.Draining? {
      WakeDrain(s);
    } else if step.Submit? && s.runner.Submitting? {
      WakeSubmit(s);
    }
  }

  lemma WakeSignals(s: Sys, step: Step)
    requires WakeInv(s) && (step.BeginSignal? || step.Sleep?)
    ensures WakeInv(Next(s, step))
  {
    if step.BeginSignal? && s.worker.Published? {
      W.StepKeepsInv(s.w, W.NewSignal(W.BACKEND));
    }
  }

  lemma WakeWorks(s: Sys, step: Step)
    requires TokenInv(s) && WakeInv(s) && Works(step)
    ensures WakeInv(Next(s, step))
  {
    if step.BeginSignal? || step.Sleep? {
      WakeSignals(s, step);
    } else if step.TakeWork? || step.PublishTurn? {
      WakeTurns(s, step);
    } else if step.Down? {
      WakeDown(s);
    } else {
      WakeTurnSteps(s, step);
    }
  }

  lemma WakeDown(s: Sys)
    requires WakeInv(s)
    ensures WakeInv(Next(s, Down))
  {
    var t := Next(s, Down);
    assert t.w == s.w && t.runner == s.runner && t.m == s.m && t.owed == s.owed;
    assert t != s ==> WillSignal(t);
  }

  lemma WakeTurns(s: Sys, step: Step)
    requires TokenInv(s) && WakeInv(s) && (step.TakeWork? || step.PublishTurn?)
    ensures WakeInv(Next(s, step))
  {
    var t := Next(s, step);
    assert t.w == s.w && t.runner == s.runner && t.sem == s.sem && t.owed == s.owed;
    assert Live(s) ==> Live(t);
  }

  lemma WakeTurnSteps(s: Sys, step: Step)
    requires WakeInv(s) && (step.Execute? || step.WriteOne? || step.EndPoll?)
    ensures WakeInv(Next(s, step))
  {
    var t := Next(s, step);
    assert t.w == s.w && t.runner == s.runner && t.m == s.m && t.owed == s.owed && t.sem == s.sem;
    assert t != s ==> WillSignal(t) && !s.worker.Woken?;
  }

  lemma StepKeepsInv(s: Sys, step: Step)
    requires Inv(s)
    ensures Inv(Next(s, step))
  {
    if Calls(step) {
      TokenCalls(s, step);
      ScanCalls(s, step);
      WakeCalls(s, step);
    } else if Exchanges(step) {
      TokenExchanges(s, step);
      StorageExchanges(s, step);
      DeliveryExchanges(s, step);
      CountExchanges(s, step);
      WakeExchanges(s, step);
    } else {
      TokenWorks(s, step);
      StorageWorks(s, step);
      CountWorks(s, step);
      WakeWorks(s, step);
    }
  }

  lemma {:induction false} RunKeepsInv(s: Sys, trace: seq<Step>)
    requires Inv(s)
    ensures Inv(Run(s, trace))
    decreases |trace|
  {
    if trace == [] {
    } else {
      StepKeepsInv(s, trace[0]);
      RunKeepsInv(Next(s, trace[0]), trace[1..]);
    }
  }

  // ----- safety over whole runs -----

  /** Some interleaving leads from the initial state to `s`. */
  ghost predicate Reachable(s: Sys) {
    exists trace :: s == Run(Init(), trace)
  }

  lemma InitToken(s: Sys)
    requires s.m == NewMailbox() && s.worker == Sleeping && s.runner == Free && s.drained == 0
    ensures TokenInv(s)
  {
  }

  lemma InitScan(s: Sys)
    requires s.m == NewMailbox() && s.runner == Free && s.scan == EmptyScan() && s.log == []
    requires s.delivered == [] && s.published == 0 && s.mismatched == 0
    ensures ScanInv(s)
  {
    assert Replay([]) == EmptyScan();
  }

  lemma InitWake(s: Sys)
    requires s.m == NewMailbox() && s.worker == Sleeping && s.runner == Free && s.w == W.Init() && !s.owed
    ensures WakeInv(s)
  {
  }

  lemma InitInv(s: Sys)
    requires s == Init()
    ensures Inv(s)
  {
    assert s.m == NewMailbox() && s.worker == Sleeping && s.runner == Free;
    InitToken(s);
    InitScan(s);
    InitWake(s);
  }

  lemma ReachableInv(s: Sys)
    requires Reachable(s)
    ensures Inv(s)
  {
    var trace :| s == Run(Init(), trace);
    var first := Init();
    InitInv(first);
    RunKeepsInv(first, trace);
  }

  /** In every run at most one of these exists: a command in the mailbox, a
      command or answer the worker holds, an unread response, a response whose
      scan is being copied.  So publishing never meets an unread response, and
      one poll call takes at most one response out of the mailbox. */
  lemma AtMostOneToken(s: Sys)
    requires Reachable(s)
    ensures && Tokens(s) <= 1
            && s.drained <= 1
            && (s.worker.Finished? && s.worker.response.Some? ==> s.m.response.None?)
  {
    ReachableInv(s);
  }

  /** The worker is never in a stretch of code that writes scan storage while
      the runner copies it, whatever `workerBusy` says. */
  lemma ScanNeverShared(s: Sys)
    requires Reachable(s)
    ensures s.runner.Copying? ==> !TouchesScan(s.worker)
  {
    ReachableInv(s);
  }

  /** Everything `poll(id)` ever hands out is tagged `id`, and the entries it
      copied for a finished scan are the prefix of what the backend wrote from
      the last scan start to the publication of that response. */
  lemma DeliveriesAreExact(s: Sys)
    requires Reachable(s)
    ensures forall i :: 0 <= i < |s.delivered| ==> GoodDelivery(s.delivered[i])
  {
    ReachableInv(s);
  }

  /** No response is lost or handed out twice: each was delivered, dropped as
      stale and counted (the counter saturates), or is still out. */
  lemma ResponsesConserved(s: Sys)
    requires Reachable(s)
    ensures && s.published == |s.delivered| + s.mismatched + One(s.m.response.Some?) + One(s.runner.Copying?)
            && s.m.staleDropped == W.SaturatingMin(s.mismatched)
  {
    ReachableInv(s);
  }

  lemma ActiveStep(s: Sys, step: Step)
    requires TokenInv(s)
    ensures var next := Next(s, step);
            && (s.m.active.Some? && next.m.active.Some? ==> next.m.active == s.m.active)
            && (s.m.active.Some? && next.m.active.None? ==> next.m.lastTerminal == s.m.active)
  {
    if step.PublishTurn? && s.worker.Finished? {
      ActiveNeverSwitches(s.worker.previous, s.worker.response);
    }
  }

  /** No step of any run moves the active identity from one operation to another,
      or leaves a deadline without an active operation. */
  lemma ActiveStepsThroughNone(s: Sys, step: Step)
    requires Reachable(s)
    ensures var next := Next(s, step);
            && (s.m.active.Some? && next.m.active.Some? ==> next.m.active == s.m.active)
            && (s.m.active.Some? && next.m.active.None? ==> next.m.lastTerminal == s.m.active)
            && (next.m.deadline.Some? ==> next.m.active.Some?)
  {
    ReachableInv(s);
    ActiveStep(s, step);
    StepKeepsInv(s, step);
  }

  // ----- progress -----

  /** Steps of the worker and of signallers already under way. */
  predicate Quiet(step: Step) {
    Works(step) || (step.Wait? && step.step.SignalStep?)
  }

  predicate Enabled(s: Sys, step: Step) {
    Next(s, step) != s
  }

  predicate WaitsForBackend(s: Sys) {
    s.w.poller.Parked? && s.w.poller.sources.backend && s.owed
  }

  /** A signaller that is not done can move. */
  lemma SignallerMoves(s: Sys, i: nat)
    requires i < |s.w.sigs| && s.w.sigs[i].pc < W.SIGNAL_DONE
    ensures Enabled(s, Wait(W.SignalStep(i, true)))
  {
    var next := W.Next(s.w, W.SignalStep(i, true));
    assert next.sigs[i].pc == s.w.sigs[i].pc + 1;
  }

  /** A worker that is not asleep can move, or its own signal can. */
  lemma WorkerMoves(s: Sys) returns (step: Step)
    requires s.worker.Signalling? ==> s.worker.i < |s.w.sigs|
    requires !s.worker.Sleeping? || s.sem > 0
    ensures Quiet(step) && Enabled(s, step)
  {
    match s.worker
    case Sleeping => step := Down;
    case Woken => step := TakeWork;
    case Turn(_, _, _, _) =>
      step := Execute(true, Pending, []);
      assert !Next(s, step).worker.Turn?;
    case Writing(_, _, writes, _) =>
      step := if writes == [] then EndPoll else WriteOne;
      assert Next(s, step).worker != s.worker;
    case Finished(_, _) => step := PublishTurn(None);
    case Published => step := BeginSignal;
    case Signalling(i) =>
      if s.w.sigs[i].pc < W.SIGNAL_DONE {
        SignallerMoves(s, i);
        step := Wait(W.SignalStep(i, true));
      } else {
        step := Sleep;
      }
  }

  /** The runner is never parked on the backend source with a promise
      outstanding and nothing under way: it is queued, or the worker or a
      signaller has a step to take. */
  lemma NotStuck(s: Sys) returns (step: Step)
    requires Inv(s) && WaitsForBackend(s) && !s.w.b.scheduled
    ensures Quiet(step) && Enabled(s, step)
  {
    if s.w.b.backendPending > 0 {
      var i :| 0 <= i < |s.w.sigs| && W.OwesWake(s.w.sigs[i], true);
      SignallerMoves(s, i);
      step := Wait(W.SignalStep(i, true));
    } else {
      step := WorkerMoves(s);
    }
  }

  function Phase(worker: Worker): nat {
    match worker
    case Sleeping => 0
    case Signalling(_) => 1
    case Published => 2
    case Finished(_, _) => 3
    case Writing(_, _, _, _) => 4
    case Turn(_, _, _, _) => 5
    case Woken => 6
  }

  function SignalsLeft(sigs: seq<W.Signaller>): nat {
    if sigs == [] then 0
    else (if sigs[0].pc < W.SIGNAL_DONE then W.SIGNAL_DONE - sigs[0].pc else 0) + SignalsLeft(sigs[1..])
  }

  function WritesLeft(worker: Worker): nat {
    if worker.Writing? then |worker.writes| else 0
  }

  /** Lexicographic order on (semaphore count, worker phase, writes left, signal operations left). */
  predicate Closer(t: Sys, s: Sys) {
    || t.sem < s.sem
    || (t.sem == s.sem && Phase(t.worker) < Phase(s.worker))
    || (t.sem == s.sem && Phase(t.worker) == Phase(s.worker) && WritesLeft(t.worker) < WritesLeft(s.worker))
    || (t.sem == s.sem && Phase(t.worker) == Phase(s.worker) && WritesLeft(t.worker) == WritesLeft(s.worker)
        && SignalsLeft(t.w.sigs) < SignalsLeft(s.w.sigs))
  }

  lemma {:induction false} SignalsLeftDrops(sigs: seq<W.Signaller>, i: nat)
    requires i < |sigs| && sigs[i].pc < W.SIGNAL_DONE
    ensures SignalsLeft(sigs[i := sigs[i].(pc := sigs[i].pc + 1)]) == SignalsLeft(sigs) - 1
  {
    var updated := sigs[i := sigs[i].(pc := sigs[i].pc + 1)];
    if i == 0 {
      assert updated[1..] == sigs[1..];
    } else {
      assert updated[1..] == sigs[1..][i - 1 := sigs[i].(pc := sigs[i].pc + 1)];
      SignalsLeftDrops(sigs[1..], i - 1);
    }
  }

  /** Quiet steps cannot go on for ever, and none of them disturbs the wait. */
  lemma WorkerStepIsProgress(s: Sys, step: Step)
    requires WakeInv(s) && Works(step) && Enabled(s, step)
    ensures Closer(Next(s, step), s)
  {
    if step.Execute? {
      assert Next(s, step).sem == s.sem && Phase(Next(s, step).worker) < Phase(s.worker);
    }
  }

  lemma QuietStepIsProgress(s: Sys, step: Step)
    requires WakeInv(s) && Quiet(step) && Enabled(s, step)
    ensures Closer(Next(s, step), s)
    ensures WaitsForBackend(s) ==> WaitsForBackend(Next(s, step))
  {
    if step.Wait? {
      SignallerStepIsProgress(s, step.step.i, step.step.keep);
    } else {
      WorkerStepIsProgress(s, step);
      WorkerStepKeepsWait(s, step);
    }
  }

  lemma SignallerStepIsProgress(s: Sys, i: nat, keep: bool)
    requires Enabled(s, Wait(W.SignalStep(i, keep)))
    ensures var t := Next(s, Wait(W.SignalStep(i, keep)));
            Closer(t, s) && (WaitsForBackend(s) ==> WaitsForBackend(t))
  {
    assert i < |s.w.sigs| && s.w.sigs[i].pc < W.SIGNAL_DONE;
    SignalsLeftDrops(s.w.sigs, i);
  }

  lemma WorkerStepKeepsWait(s: Sys, step: Step)
    requires Works(step)
    ensures WaitsForBackend(s) ==> WaitsForBackend(Next(s, step))
  {
    var t := Next(s, step);
    assert t.w.poller == s.w.poller && t.owed == s.owed && t.runner == s.runner;
  }

  /** From every reachable state in which the runner waits for the backend with a
      promise outstanding, worker and signallers alone bring it back to the
      executor's queue; together with `QuietStepIsProgress` any order of their
      steps does. */
  lemma WorkerAloneWakesRunner(s: Sys) returns (trace: seq<Step>)
    requires Inv(s) && WaitsForBackend(s)
    ensures forall i :: 0 <= i < |trace| ==> Quiet(trace[i])
    ensures var t := Run(s, trace); WaitsForBackend(t) && t.w.b.scheduled
    decreases s.sem, Phase(s.worker), WritesLeft(s.worker), SignalsLeft(s.w.sigs)
  {
    trace := [];
    if !s.w.b.scheduled {
      var step := NotStuck(s);
      QuietStepIsProgress(s, step);
      StepKeepsInv(s, step);
      var rest := WorkerAloneWakesRunner(Next(s, step));
      trace := [step] + rest;
      assert trace[1..] == rest;
    }
  }

  /** Whatever quiet steps were taken in whatever order, once none is left the
      waiting runner is queued. */
  lemma {:induction false} QuiescenceMeansQueued(s: Sys, trace: seq<Step>)
    requires Inv(s) && WaitsForBackend(s)
    requires forall i :: 0 <= i < |trace| ==> Quiet(trace[i])
    ensures var t := Run(s, trace);
            (forall step :: Quiet(step) ==> !Enabled(t, step)) ==> t.w.b.scheduled
    decreases |trace|
  {
    if trace == [] {
      if !s.w.b.scheduled {
        var step := NotStuck(s);
      }
    } else {
      if Enabled(s, trace[0]) {
        QuietStepIsProgress(s, trace[0]);
        StepKeepsInv(s, trace[0]);
      }
      QuiescenceMeansQueued(Next(s, trace[0]), trace[1..]);
    }
  }

  /** The promise of the protocol as the runner sees it: parked on the backend
      source after a waiting report, an accepted start or a cancellation, it is
      woken by what is already under way, in whatever order that is scheduled. */
  lemma WaitingRunnerIsWoken(s: Sys) returns (trace: seq<Step>)
    requires Reachable(s) && WaitsForBackend(s)
    ensures forall i :: 0 <= i < |trace| ==> Quiet(trace[i])
    ensures Run(s, trace).w.b.scheduled
    ensures forall other: seq<Step> ::
              (forall i :: 0 <= i < |other| ==> Quiet(other[i]))
              && (forall step :: Quiet(step) ==> !Enabled(Run(s, other), step))
              ==> Run(s, other).w.b.scheduled
  {
    ReachableInv(s);
    trace := WorkerAloneWakesRunner(s);
    forall other: seq<Step> |
      && (forall i :: 0 <= i < |other| ==> Quiet(other[i]))
      && (forall step :: Quiet(step) ==> !Enabled(Run(s, other), step))
      ensures Run(s, other).w.b.scheduled
    {
      QuiescenceMeansQueued(s, other);
    }
  }

  // ----- what ends a call -----

  /** A poll call that takes the answer of an accepted start goes on to ask for a poll;
      it returns on any other answer of its own, or once it has asked, and then it is
      owed a wake-up exactly if it was told to wait. */
  lemma CallsEnd(s: Sys, step: Step)
    requires Exchanges(step) || step.Release?
    ensures var t := Next(s, step);
            && (s.runner.Draining? && s.m.response == Some(Started(s.runner.id, true)) && step.Drain? ==>
                  t.runner == Submitting(Poll(s.runner.id)))
            && (!s.runner.Free? && t.runner.Free? ==>
                  || (|t.delivered| == |s.delivered| + 1 && t.owed == s.owed
                      && t.delivered[|s.delivered|].response != Started(t.delivered[|s.delivered|].asked, true))
                  || (s.runner.Releasing? && t.owed && t.sem == s.sem + 1)
                  || (s.runner.Submitting? && !CanAccept(s.m) && t.m == s.m && t.owed == (s.owed || s.runner.command.Poll?)))
  {
  }

  predicate RunnerStep(step: Step) {
    Exchanges(step) || step.Release?
  }

  function CallRank(s: Sys): nat {
    match s.runner
    case Free => 0
    case Releasing => 1
    case Submitting(_) => 2
    case Copying(_, _, _, _, _) => 3
    case Draining(_, _) => 4 + One(s.m.response.Some?)
  }

  function CopiesLeft(runner: Runner): nat {
    if runner.Copying? && |runner.copied| < runner.count then runner.count - |runner.copied| else 0
  }

  lemma RunnerMoves(s: Sys) returns (step: Step)
    requires StorageInv(s) && !s.runner.Free?
    ensures RunnerStep(step) && StorageInv(Next(s, step))
    ensures var t := Next(s, step);
            CallRank(t) < CallRank(s) || (CallRank(t) == CallRank(s) && CopiesLeft(t.runner) < CopiesLeft(s.runner))
  {
    match s.runner
    case Draining(_, _) =>
      step := Drain;
      StorageExchanges(s, Drain);
    case Copying(_, _, _, count, copied) =>
      step := if |copied| < count then CopyOne else EndCopy;
      StorageExchanges(s, step);
    case Submitting(_) =>
      step := Submit;
      StorageExchanges(s, Submit);
    case Releasing =>
      step := Release;
  }

  /** Every call of the runner comes to its end by the runner's own steps: it waits for
      nobody. */
  lemma {:induction false} CallsFinishAlone(s: Sys) returns (trace: seq<Step>)
    requires StorageInv(s)
    ensures forall i :: 0 <= i < |trace| ==> RunnerStep(trace[i])
    ensures Run(s, trace).runner.Free?
    decreases CallRank(s), CopiesLeft(s.runner)
  {
    trace := [];
    if !s.runner.Free? {
      var step := RunnerMoves(s);
      var rest := CallsFinishAlone(Next(s, step));
      trace := [step] + rest;
      assert trace[1..] == rest;
    }
  }

  // ----- one command with nothing in between -----

  predicate Quiescent(s: Sys) {
    CanCall(s) && CanAccept(s.m) && s.worker.Sleeping?
  }

  lemma StartIsSubmitted(s: Sys, id: OperationId, request: Request)
    requires Quiescent(s)
    ensures Next(Next(Next(Next(s, CallStart(id, request)), Submit), Release), Down)
         == s.(m := s.m.(command := Some(Start(id, request))), worker := Woken, owed := true)
  {
    var s1 := Next(s, CallStart(id, request));
    var s2 := Next(s1, Submit);
    assert s2 == s.(m := s.m.(command := Some(Start(id, request))), runner := Releasing);
    var s3 := Next(s2, Release);
    assert s3 == s.(m := s2.m, sem := s.sem + 1, owed := true);
  }

  lemma StartIsExecuted(s: Sys, id: OperationId, request: Request, ok: bool, deadline: Option<nat>)
    requires s.worker.Woken? && s.m.command == Some(Start(id, request)) && s.m.response.None?
    ensures var t := Next(Next(Next(s, TakeWork), Execute(ok, Pending, [])), PublishTurn(deadline));
            && t.m.response == Some(Started(id, ok)) && t.m.command.None? && !t.m.workerBusy
            && t.m.active == NextActive(s.m.active, Some(Started(id, ok)))
            && t.w == s.w && t.runner == s.runner && t.delivered == s.delivered
            && t.log == (if request.Scan? then [] else s.log)
  {
    var s1 := Next(s, TakeWork);
    assert s1.worker == Turn(s.m.cancellation, Some(Start(id, request)), s.m.active, None);
    var s2 := Next(s1, Execute(ok, Pending, []));
    assert s2.worker == Finished(s.m.active, Some(Started(id, ok))) && s2.m == s1.m;
  }

  lemma AnswerIsDelivered(s: Sys, id: OperationId, ok: bool, room: nat)
    requires CanCall(s) && s.m.response == Some(Started(id, ok))
    ensures var t := Next(Next(s, CallPoll(id, room)), Drain);
            && t.delivered == s.delivered + [Delivery(id, Started(id, ok), room, [], s.sealed)]
            && t.m.response.None? && t.runner == (if ok then Submitting(Poll(id)) else Free)
  {
    var s1 := Next(s, CallPoll(id, room));
    assert s1 == s.(runner := Draining(id, room), drained := 0);
  }

  /** From any state with nothing in the mailbox and the worker asleep, a start call is
      executed in one worker turn and its outcome is what the next poll of that id
      takes. */
  lemma StartRoundTrip(s: Sys, id: OperationId, request: Request, ok: bool, deadline: Option<nat>, room: nat)
    requires Quiescent(s)
    ensures var taken := Next(Next(Next(Next(s, CallStart(id, request)), Submit), Release), Down);
            var answered := Next(Next(Next(taken, TakeWork), Execute(ok, Pending, [])), PublishTurn(deadline));
            var t := Next(Next(answered, CallPoll(id, room)), Drain);
            && t.delivered == s.delivered + [Delivery(id, Started(id, ok), room, [], answered.sealed)]
            && answered.m.active == NextActive(s.m.active, Some(Started(id, ok)))
            && t.runner == (if ok then Submitting(Poll(id)) else Free)
  {
    StartIsSubmitted(s, id, request);
    var taken := s.(m := s.m.(command := Some(Start(id, request))), worker := Woken, owed := true);
    StartIsExecuted(taken, id, request, ok, deadline);
    var answered := Next(Next(Next(taken, TakeWork), Execute(ok, Pending, [])), PublishTurn(deadline));
    AnswerIsDelivered(answered, id, ok, room);
  }

  // ----- `workerBusy` alone would not protect the copy -----

  lemma {:induction false} RunThenStep(s: Sys, trace: seq<Step>, step: Step)
    ensures Run(s, trace + [step]) == Next(Run(s, trace), step)
    decreases |trace|
  {
    var longer := trace + [step];
    if trace == [] {
      assert longer[1..] == [];
    } else {
      assert longer[1..] == trace[1..] + [step];
      RunThenStep(Next(s, trace[0]), trace[1..], step);
    }
  }

  lemma ReachableStep(s: Sys, step: Step)
    requires Reachable(s)
    ensures Reachable(Next(s, step))
  {
    var trace :| s == Run(Init(), trace);
    RunThenStep(Init(), trace, step);
  }

  /** A poll of operation 7 is submitted to an idle worker. */
  lemma SubmitsPoll(s0: Sys) returns (s: Sys)
    requires Reachable(s0) && s0.m == NewMailbox() && CanCall(s0) && s0.worker.Sleeping? && s0.sem == 0
    ensures Reachable(s) && s.m == NewMailbox().(command := Some(Poll(7)))
    ensures CanCall(s) && s.worker.Sleeping? && s.sem == 1
  {
    var s1 := Next(s0, CallPoll(7, 1));
    ReachableStep(s0, CallPoll(7, 1));
    var s2 := Next(s1, Drain);
    ReachableStep(s1, Drain);
    var s3 := Next(s2, Submit);
    ReachableStep(s2, Submit);
    s := Next(s3, Release);
    ReachableStep(s3, Release);
  }

  /** The worker takes it up and polls the backend. */
  lemma TakesPoll(s0: Sys) returns (s: Sys)
    requires Reachable(s0) && s0.m == NewMailbox().(command := Some(Poll(7)))
    requires CanCall(s0) && s0.worker.Sleeping? && s0.sem == 1
    ensures Reachable(s) && s.m == NewMailbox().(workerBusy := true)
    ensures CanCall(s) && s.worker == Writing(None, 7, [], CompleteScan(1)) && s.sem == 0
  {
    var s1 := Next(s0, Down);
    ReachableStep(s0, Down);
    assert s1 == s0.(sem := 0, worker := Woken);
    var s2 := Next(s1, TakeWork);
    ReachableStep(s1, TakeWork);
    assert s2 == s1.(m := NewMailbox().(workerBusy := true), worker := Turn(None, Some(Poll(7)), None, None));
    s := Next(s2, Execute(true, CompleteScan(1), []));
    ReachableStep(s2, Execute(true, CompleteScan(1), []));
  }

  /** The backend reports a finished scan of one entry. */
  lemma AnswersScan(s0: Sys) returns (s: Sys)
    requires Reachable(s0) && s0.m == NewMailbox().(workerBusy := true)
    requires CanCall(s0) && s0.worker == Writing(None, 7, [], CompleteScan(1)) && s0.sem == 0
    ensures Reachable(s) && s.m == NewMailbox().(response := Some(Polled(7, CompleteScan(1))))
    ensures CanCall(s) && s.worker.Published? && s.sem == 0
  {
    var s1 := Next(s0, EndPoll);
    ReachableStep(s0, EndPoll);
    assert s1 == s0.(worker := Finished(None, Some(Polled(7, CompleteScan(1)))));
    s := Next(s1, PublishTurn(None));
    ReachableStep(s1, PublishTurn(None));
  }

  lemma StartsSignal(s0: Sys) returns (s: Sys)
    requires Reachable(s0) && s0.worker.Published?
    ensures Reachable(s) && s.m == s0.m && s.runner == s0.runner && s.w.poller == s0.w.poller && s.sem == s0.sem
    ensures s.worker.Signalling? && s.worker.i < |s.w.sigs|
  {
    s := Next(s0, BeginSignal);
    ReachableStep(s0, BeginSignal);
  }

  /** The worker finishes its signal and sleeps; nothing else moves. */
  lemma SignalsAndSleeps(s0: Sys) returns (s: Sys)
    requires Reachable(s0) && CanCall(s0) && s0.worker.Signalling? && s0.worker.i < |s0.w.sigs|
    ensures Reachable(s) && s.m == s0.m && CanCall(s) && s.worker.Sleeping? && s.sem == s0.sem
    decreases W.SIGNAL_DONE - s0.w.sigs[s0.worker.i].pc
  {
    var i := s0.worker.i;
    if s0.w.sigs[i].pc < W.SIGNAL_DONE {
      ReachableStep(s0, Wait(W.SignalStep(i, true)));
      s := SignalsAndSleeps(Next(s0, Wait(W.SignalStep(i, true))));
    } else {
      ReachableStep(s0, Sleep);
      s := Next(s0, Sleep);
    }
  }

  /** The runner starts copying and a spurious release gives the worker a turn. */
  lemma StartsCopy(s0: Sys) returns (s: Sys)
    requires Reachable(s0) && s0.m == NewMailbox().(response := Some(Polled(7, CompleteScan(1))))
    requires CanCall(s0) && s0.worker.Sleeping? && s0.sem == 0
    ensures Reachable(s) && s.runner == Copying(7, 1, Polled(7, CompleteScan(1)), 1, [])
    ensures s.m == NewMailbox().(workerBusy := true) && s.worker.Sleeping? && s.sem == 0
  {
    ReachableStep(s0, CallPoll(7, 1));
    s := Next(s0, CallPoll(7, 1));
    ReachableStep(s, Drain);
    s := Next(s, Drain);
  }

  lemma CopiesBesideSpuriousTurn(s0: Sys) returns (s: Sys)
    requires Reachable(s0) && s0.m == NewMailbox().(response := Some(Polled(7, CompleteScan(1))))
    requires CanCall(s0) && s0.worker.Sleeping? && s0.sem == 0
    ensures Reachable(s) && s.runner == Copying(7, 1, Polled(7, CompleteScan(1)), 1, [])
    ensures s.worker.Turn? && !s.m.workerBusy
  {
    var s2 := StartsCopy(s0);
    var s3 := Next(s2, SpuriousRelease);
    ReachableStep(s2, SpuriousRelease);
    assert s3 == s2.(sem := 1);
    var s4 := Next(s3, Down);
    ReachableStep(s3, Down);
    assert s4 == s2.(worker := Woken);
    s := Next(s4, TakeWork);
    ReachableStep(s4, TakeWork);
  }

  /** A run in which a spurious worker turn lowers `workerBusy` while the runner
      is still copying: the flag does not keep the worker out, the token does. */
  lemma BusyFlagFallsDuringCopy() returns (s: Sys)
    ensures Reachable(s) && s.runner.Copying? && |s.runner.copied| < s.runner.count
    ensures s.worker.Turn? && !s.m.workerBusy
  {
    assert Init() == Run(Init(), []);
    s := SubmitsPoll(Init());
    s := TakesPoll(s);
    s := AnswersScan(s);
    s := StartsSignal(s);
    s := SignalsAndSleeps(s);
    s := CopiesBesideSpuriousTurn(s);
  }
}
