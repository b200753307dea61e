/** What passes through the worker protocol: books kept beside every run of the
    system, from the arguments of its steps, and what the system does with them. */
module WorkerAnswers {
  import opened Common
  import W = WaitBridge
  import opened WorkerMailbox
  import opened WorkerProtocol

  /** A `poll(id)` call and the room its caller has for scan results. */
  datatype Ask = Ask(id: OperationId, room: nat)

  /** A response the runner took out of the mailbox, and the call that took it. */
  datatype Consumed = Consumed(response: Response, ask: Ask)

  /** The command and the call the runner is in; commands accepted and executed; what
      the backend answered, what was published, what was taken; scan writes the backend
      reported since the last scan start; the cancellation asked for and the one of the
      worker's turn; injections armed and made, and the one of the turn; the deadline
      last published. */
  datatype Books = Books(
    current: Command,
    ask: Ask,
    submitted: seq<Command>,
    executed: seq<Command>,
    answers: seq<Response>,
    published: seq<Response>,
    consumed: seq<Consumed>,
    written: seq<Write>,
    cancel: Option<OperationId>,
    turnCancel: Option<OperationId>,
    armed: nat,
    injections: nat,
    injected: Option<OperationId>,
    deadline: Option<nat>)

  datatype History = History(sys: Sys, books: Books)

  function NoBooks(): Books {
    Books(Poll(0), Ask(0, 0), [], [], [], [], [], [], None, None, 0, 0, None, None)
  }

  /** What the worker owes for a command: the start's outcome or the poll's result as
      the backend gave it, or the injected stale completion. */
  function AnswerTo(command: Command, injected: Option<OperationId>, ok: bool, result: PollResult): Response {
    if command.Start? then Started(command.id, ok)
    else if injected.Some? then Polled(injected.value, CompleteOther)
    else Polled(command.id, result)
  }

  /** An armed injection goes off on a poll for another operation than the last that ended. */
  function Injection(m: Mailbox): Option<OperationId> {
    if m.staleArmed && m.lastTerminal.Some? && m.command.Some? && m.command.value.Poll?
       && m.command.value.id != m.lastTerminal.value
    then m.lastTerminal else None
  }

  /** The answer leaves its operation running. */
  predicate Goes(r: Response) {
    match r
    case Started(_, ok) => ok
    case Polled(_, result) => result == Pending || result == BudgetExhausted
  }

  datatype Tracked = Tracked(active: Option<OperationId>, last: Option<OperationId>)

  /** The active operation and the last one to end, by the answers published. */
  function Track(published: seq<Response>): Tracked {
    if published == [] then Tracked(None, None)
    else
      var t, r := Track(published[..|published| - 1]), published[|published| - 1];
      if t.active.Some? && t.active.value != r.id then t
      else if Goes(r) then t.(active := Some(r.id))
      else Tracked(None, if t.active.Some? then t.active else t.last)
  }

  /** The books after a step, from the state it finds. */
  function Note(b: Books, s: Sys, step: Step): Books {
    match step
    case CallStart(id, request) => if CanCall(s) then b.(current := Start(id, request)) else b
    case CallPoll(id, room) => if CanCall(s) then b.(current := Poll(id), ask := Ask(id, room)) else b
    case CallCancel(id) => if CanCall(s) then b.(cancel := Some(id)) else b
    case Drain =>
      if s.runner.Draining? && s.m.response.Some? then b.(consumed := b.consumed + [Consumed(s.m.response.value, b.ask)])
      else b
    case Submit =>
      if s.runner.Submitting? && CanAccept(s.m) then b.(submitted := b.submitted + [b.current]) else b
    case TakeWork =>
      if s.worker.Woken? then
        b.(turnCancel := b.cancel, cancel := None, injected := Injection(s.m),
           injections := b.injections + One(Injection(s.m).Some?))
      else b
    case Execute(ok, result, writes) =>
      if s.worker.Turn? && s.worker.command.Some? then
        var command := s.worker.command.value;
        b.(executed := b.executed + [command],
           answers := b.answers + [AnswerTo(command, b.injected, ok, result)],
           written := if command.Start? then (if command.request.Scan? then [] else b.written)
                      else if b.injected.Some? then b.written else b.written + writes)
      else b
    case PublishTurn(deadline) =>
      if s.worker.Finished? then
        var published := if s.worker.response.Some? then b.published + [s.worker.response.value] else b.published;
        b.(published := published, deadline := if Track(published).active.Some? then deadline else None)
      else b
    case ArmInjection => b.(armed := b.armed + One(s.m.lastTerminal.Some? && !s.m.staleArmed))
    case _ => b
  }

  function NextHistory(h: History, step: Step): History {
    History(Next(h.sys, step), Note(h.books, h.sys, step))
  }

  function Histories(trace: seq<Step>): History {
    if trace == [] then History(Init(), NoBooks())
    else NextHistory(Histories(trace[..|trace| - 1]), trace[|trace| - 1])
  }

  // ----- where everything is -----

  function Opt<T>(x: Option<T>): seq<T> {
    if x.Some? then [x.value] else []
  }

  function HeldCommand(worker: Worker): seq<Command> {
    if worker.Turn? then Opt(worker.command) else []
  }

  function HeldAnswer(worker: Worker): seq<Response> {
    match worker
    case Writing(_, id, _, result) => [Polled(id, result)]
    case Finished(_, response) => Opt(response)
    case _ => []
  }

  function HeldWrites(worker: Worker): seq<Write> {
    if worker.Writing? then worker.writes else []
  }

  function Responses(consumed: seq<Consumed>): (r: seq<Response>)
    ensures |r| == |consumed| && forall i :: 0 <= i < |r| ==> r[i] == consumed[i].response
  {
    if consumed == [] then []
    else Responses(consumed[..|consumed| - 1]) + [consumed[|consumed| - 1].response]
  }

  /** The responses taken by the call they answer. */
  function Matching(consumed: seq<Consumed>): seq<Consumed> {
    if consumed == [] then []
    else
      var last := consumed[|consumed| - 1];
      Matching(consumed[..|consumed| - 1]) + if last.response.id == last.ask.id then [last] else []
  }

  function Deliveries(delivered: seq<Delivery>): seq<Consumed> {
    if delivered == [] then []
    else
      var d := delivered[|delivered| - 1];
      Deliveries(delivered[..|delivered| - 1]) + [Consumed(d.response, Ask(d.asked, d.room))]
  }

  function BeingCopied(runner: Runner): seq<Consumed> {
    if runner.Copying? then [Consumed(runner.response, Ask(runner.id, runner.room))] else []
  }

  predicate CallInv(h: History) {
    var r, b := h.sys.runner, h.books;
    && (r.Submitting? ==> r.command == b.current)
    && (r.Draining? ==> Ask(r.id, r.room) == b.ask && b.current == Poll(r.id))
    && (r.Copying? ==> Ask(r.id, r.room) == b.ask && b.current == Poll(r.id))
  }

  predicate CommandInv(h: History) {
    h.books.submitted == h.books.executed + HeldCommand(h.sys.worker) + Opt(h.sys.m.command)
  }

  predicate AnswerInv(h: History) {
    && h.books.answers == h.books.published + HeldAnswer(h.sys.worker)
    && |h.books.answers| == |h.books.executed|
  }

  predicate ConsumedInv(h: History) {
    h.books.published == Responses(h.books.consumed) + Opt(h.sys.m.response)
  }

  predicate DeliveredInv(h: History) {
    AllDelivered(h.books.consumed, h.sys.delivered, BeingCopied(h.sys.runner))
  }

  predicate AllDelivered(consumed: seq<Consumed>, delivered: seq<Delivery>, copied: seq<Consumed>) {
    Matching(consumed) == Deliveries(delivered) + copied
  }

  predicate WrittenInv(h: History) {
    h.sys.log + HeldWrites(h.sys.worker) == h.books.written
  }

  predicate CancelInv(h: History) {
    && h.sys.m.cancellation == h.books.cancel
    && (h.sys.worker.Turn? ==> h.sys.worker.cancel == h.books.turnCancel && h.sys.worker.injected == h.books.injected)
    && h.books.armed == h.books.injections + One(h.sys.m.staleArmed)
    && h.sys.m.staleInjected == W.SaturatingMin(h.books.injections)
  }

  predicate ActiveInv(h: History) {
    && Tracked(h.sys.m.active, h.sys.m.lastTerminal) == Track(h.books.published)
    && h.sys.m.deadline == h.books.deadline
  }

  // ----- what a step leaves alone -----

  /** Steps that are a critical section on the mailbox. */
  predicate TouchesMailbox(step: Step) {
    step.CallCancel? || step.Drain? || step.EndCopy? || step.Submit? || step.TakeWork? || step.PublishTurn?
    || step.ArmInjection?
  }

  lemma MailboxStays(s: Sys, step: Step)
    requires !TouchesMailbox(step)
    ensures Next(s, step).m == s.m
  {
  }

  lemma WorkerStays(s: Sys, step: Step)
    requires !Works(step)
    ensures Next(s, step).worker == s.worker && Next(s, step).log == s.log
  {
  }

  lemma RunnerStays(s: Sys, step: Step)
    requires !Calls(step) && !Exchanges(step)
    ensures Next(s, step).runner == s.runner && Next(s, step).delivered == s.delivered
  {
  }

  // ----- every step keeps the books right -----

  lemma CallsKept(h: History, step: Step)
    requires CallInv(h)
    ensures CallInv(NextHistory(h, step))
  {
  }

  lemma CommandsMove(h: History, step: Step)
    requires TokenInv(h.sys) && CallInv(h) && CommandInv(h) && (step.Submit? || step.TakeWork? || step.Execute?)
    ensures CommandInv(NextHistory(h, step))
  {
    var t := NextHistory(h, step);
    if step.TakeWork? && h.sys.worker.Woken? {
      assert HeldCommand(t.sys.worker) == Opt(h.sys.m.command);
    } else if step.Execute? && h.sys.worker.Turn? {
      assert h.sys.m.command.None? || h.sys.worker.command.None?;
    }
  }

  lemma CommandsKept(h: History, step: Step)
    requires TokenInv(h.sys) && CallInv(h) && CommandInv(h)
    ensures CommandInv(NextHistory(h, step))
  {
    if step.Submit? || step.TakeWork? || step.Execute? {
      CommandsMove(h, step);
    } else if TouchesMailbox(step) {
      CommandsElsewhere(h, step);
    } else {
      MailboxStays(h.sys, step);
      HandsStay(h.sys, step);
    }
  }

  lemma CommandsElsewhere(h: History, step: Step)
    requires CommandInv(h) && TouchesMailbox(step) && !step.Submit? && !step.TakeWork?
    ensures CommandInv(NextHistory(h, step))
  {
    HandsStay(h.sys, step);
    var t := NextHistory(h, step);
    assert t.sys.m.command == h.sys.m.command && t.books.submitted == h.books.submitted && t.books.executed == h.books.executed;
  }

  lemma HandsStay(s: Sys, step: Step)
    requires !step.TakeWork? && !step.Execute?
    ensures HeldCommand(Next(s, step).worker) == HeldCommand(s.worker)
    ensures Next(s, step).worker.Turn? ==> Next(s, step).worker == s.worker
  {
    if !Works(step) {
      WorkerStays(s, step);
    }
  }

  lemma AnswersByExecute(h: History, step: Step)
    requires CancelInv(h) && AnswerInv(h) && step.Execute?
    ensures AnswerInv(NextHistory(h, step))
  {
  }

  lemma AnswersMove(h: History, step: Step)
    requires CancelInv(h) && AnswerInv(h) && Works(step)
    ensures AnswerInv(NextHistory(h, step))
  {
    if step.Execute? {
      AnswersByExecute(h, step);
    } else {
      AnswersByTurn(h, step);
    }
  }

  lemma AnswersByTurn(h: History, step: Step)
    requires AnswerInv(h) && Works(step) && !step.Execute?
    ensures AnswerInv(NextHistory(h, step))
  {
  }

  lemma AnswersKept(h: History, step: Step)
    requires CancelInv(h) && AnswerInv(h)
    ensures AnswerInv(NextHistory(h, step))
  {
    if Works(step) {
      AnswersMove(h, step);
    } else {
      WorkerStays(h.sys, step);
    }
  }

  lemma ConsumedByDrain(h: History)
    requires ConsumedInv(h)
    ensures ConsumedInv(NextHistory(h, Drain))
  {
    DrainEmpties(h.sys);
    var b, t := h.books, Note(h.books, h.sys, Drain);
    assert t.published == b.published;
    if h.sys.runner.Draining? && h.sys.m.response.Some? {
      assert t.consumed[..|b.consumed|] == b.consumed;
    } else {
      assert t.consumed == b.consumed;
    }
  }

  lemma DrainEmpties(s: Sys)
    ensures Next(s, Drain).m.response == if s.runner.Draining? then None else s.m.response
  {
  }

  lemma ConsumedByPublish(h: History, deadline: Option<nat>)
    requires TokenInv(h.sys) && ConsumedInv(h)
    ensures ConsumedInv(NextHistory(h, PublishTurn(deadline)))
  {
  }

  lemma ConsumedElsewhere(h: History, step: Step)
    requires ConsumedInv(h) && TouchesMailbox(step) && !step.Drain? && !step.PublishTurn?
    ensures ConsumedInv(NextHistory(h, step))
  {
    ResponseStays(h.sys, step);
    ResponseUnnoted(h.books, h.sys, step);
  }

  lemma ResponseStays(s: Sys, step: Step)
    requires !step.Drain? && !step.PublishTurn?
    ensures Next(s, step).m.response == s.m.response
  {
  }

  lemma ResponseUnnoted(b: Books, s: Sys, step: Step)
    requires !step.Drain? && !step.PublishTurn?
    ensures Note(b, s, step).consumed == b.consumed && Note(b, s, step).published == b.published
  {
  }

  lemma ConsumedKept(h: History, step: Step)
    requires TokenInv(h.sys) && ConsumedInv(h)
    ensures ConsumedInv(NextHistory(h, step))
  {
    if step.Drain? {
      ConsumedByDrain(h);
    } else if step.PublishTurn? {
      ConsumedByPublish(h, step.deadline);
    } else if TouchesMailbox(step) {
      ConsumedElsewhere(h, step);
    } else {
      MailboxStays(h.sys, step);
    }
  }

  lemma OneMoreConsumed(consumed: seq<Consumed>, c: Consumed)
    ensures Matching(consumed + [c]) == Matching(consumed) + if c.response.id == c.ask.id then [c] else []
  {
    assert (consumed + [c])[..|consumed|] == consumed;
  }

  lemma OneMoreDelivery(delivered: seq<Delivery>, d: Delivery)
    ensures Deliveries(delivered + [d]) == Deliveries(delivered) + [Consumed(d.response, Ask(d.asked, d.room))]
  {
    assert (delivered + [d])[..|delivered|] == delivered;
  }

  lemma DroppedFits(consumed: seq<Consumed>, delivered: seq<Delivery>, c: Consumed)
    requires AllDelivered(consumed, delivered, []) && c.response.id != c.ask.id
    ensures AllDelivered(consumed + [c], delivered, [])
  {
    OneMoreConsumed(consumed, c);
  }

  lemma CopiedFits(consumed: seq<Consumed>, delivered: seq<Delivery>, c: Consumed)
    requires AllDelivered(consumed, delivered, []) && c.response.id == c.ask.id
    ensures AllDelivered(consumed + [c], delivered, [c])
  {
    OneMoreConsumed(consumed, c);
  }

  lemma DeliveredFits(consumed: seq<Consumed>, delivered: seq<Delivery>, c: Consumed, d: Delivery)
    requires AllDelivered(consumed, delivered, []) && c.response.id == c.ask.id
    requires Consumed(d.response, Ask(d.asked, d.room)) == c
    ensures AllDelivered(consumed + [c], delivered + [d], [])
  {
    OneMoreConsumed(consumed, c);
    OneMoreDelivery(delivered, d);
  }

  lemma DrainIdle(h: History)
    requires !(h.sys.runner.Draining? && h.sys.m.response.Some?)
    ensures var t := NextHistory(h, Drain);
            t.sys.delivered == h.sys.delivered && BeingCopied(t.sys.runner) == BeingCopied(h.sys.runner)
            && t.books.consumed == h.books.consumed
  {
  }

  lemma DeliveredByDrain(h: History)
    requires CallInv(h) && DeliveredInv(h)
    ensures DeliveredInv(NextHistory(h, Drain))
  {
    if h.sys.runner.Draining? && h.sys.m.response.Some? {
      var s, t := h.sys, Next(h.sys, Drain);
      var r := s.m.response.value;
      var c := Consumed(r, h.books.ask);
      assert NextHistory(h, Drain) == History(t, h.books.(consumed := h.books.consumed + [c]));
      if r.id != s.runner.id {
        assert t.delivered == s.delivered && BeingCopied(t.runner) == [];
        DroppedFits(h.books.consumed, s.delivered, c);
      } else if ScanDone(r) {
        assert t.delivered == s.delivered && BeingCopied(t.runner) == [c];
        CopiedFits(h.books.consumed, s.delivered, c);
      } else {
        var d := Delivery(s.runner.id, r, s.runner.room, [], s.sealed);
        assert t.delivered == s.delivered + [d] && BeingCopied(t.runner) == [];
        DeliveredFits(h.books.consumed, s.delivered, c, d);
      }
    } else {
      DrainIdle(h);
    }
  }

  lemma HandedOverFits(consumed: seq<Consumed>, delivered: seq<Delivery>, d: Delivery)
    requires AllDelivered(consumed, delivered, [Consumed(d.response, Ask(d.asked, d.room))])
    ensures AllDelivered(consumed, delivered + [d], [])
  {
    OneMoreDelivery(delivered, d);
  }

  lemma EndCopyEffect(s: Sys)
    ensures var t := Next(s, EndCopy);
            if s.runner.Copying? && |s.runner.copied| >= s.runner.count then
              && t.delivered == s.delivered + [Delivery(s.runner.id, s.runner.response, s.runner.room, s.runner.copied, s.sealed)]
              && !t.runner.Copying?
            else t == s
  {
  }

  lemma DeliveredByCopy(h: History)
    requires DeliveredInv(h)
    ensures DeliveredInv(NextHistory(h, EndCopy))
  {
    var s := h.sys;
    EndCopyEffect(s);
    ConsumedStays(h.books, s, EndCopy);
    if s.runner.Copying? && |s.runner.copied| >= s.runner.count {
      HandedOverFits(h.books.consumed, s.delivered,
                     Delivery(s.runner.id, s.runner.response, s.runner.room, s.runner.copied, s.sealed));
    }
  }

  lemma DeliveredElsewhere(s: Sys, step: Step)
    requires !step.Drain? && !step.EndCopy?
    ensures Next(s, step).delivered == s.delivered && BeingCopied(Next(s, step).runner) == BeingCopied(s.runner)
  {
    if !Calls(step) && !Exchanges(step) {
      RunnerStays(s, step);
    }
  }

  lemma ConsumedStays(b: Books, s: Sys, step: Step)
    requires !step.Drain?
    ensures Note(b, s, step).consumed == b.consumed
  {
  }

  lemma DeliveredKept(h: History, step: Step)
    requires CallInv(h) && DeliveredInv(h)
    ensures DeliveredInv(NextHistory(h, step))
  {
    if step.Drain? {
      DeliveredByDrain(h);
    } else if step.EndCopy? {
      DeliveredByCopy(h);
    } else {
      DeliveredElsewhere(h.sys, step);
      ConsumedStays(h.books, h.sys, step);
    }
  }

  lemma WrittenMoves(h: History, step: Step)
    requires CancelInv(h) && WrittenInv(h) && Works(step)
    ensures WrittenInv(NextHistory(h, step))
  {
    if step.WriteOne? {
      WrittenByWrite(h);
    } else if step.Execute? {
      WrittenByExecute(h, step);
    } else {
      WrittenByTurn(h, step);
    }
  }

  lemma WrittenByExecute(h: History, step: Step)
    requires CancelInv(h) && WrittenInv(h) && step.Execute?
    ensures WrittenInv(NextHistory(h, step))
  {
  }

  lemma WrittenByTurn(h: History, step: Step)
    requires WrittenInv(h) && Works(step) && !step.Execute? && !step.WriteOne?
    ensures WrittenInv(NextHistory(h, step))
  {
  }

  lemma WrittenByWrite(h: History)
    requires WrittenInv(h)
    ensures WrittenInv(NextHistory(h, WriteOne))
  {
    if h.sys.worker.Writing? && h.sys.worker.writes != [] {
      assert h.sys.worker.writes == [h.sys.worker.writes[0]] + h.sys.worker.writes[1..];
    }
  }

  lemma WrittenKept(h: History, step: Step)
    requires CancelInv(h) && WrittenInv(h)
    ensures WrittenInv(NextHistory(h, step))
  {
    if Works(step) {
      WrittenMoves(h, step);
    } else {
      WorkerStays(h.sys, step);
    }
  }

  lemma CancelByTurn(h: History)
    requires CancelInv(h)
    ensures CancelInv(NextHistory(h, TakeWork))
  {
  }

  lemma CancelByCalls(h: History, step: Step)
    requires CancelInv(h) && (step.CallCancel? || step.ArmInjection?)
    ensures CancelInv(NextHistory(h, step))
  {
  }

  lemma CancelElsewhere(h: History, step: Step)
    requires CancelInv(h) && (step.Drain? || step.EndCopy? || step.Submit? || step.PublishTurn?)
    ensures CancelInv(NextHistory(h, step))
  {
    HandsStay(h.sys, step);
    CancelUntouched(h.sys, step);
    CancelUnnoted(h.books, h.sys, step);
  }

  lemma CancelUntouched(s: Sys, step: Step)
    requires step.Drain? || step.EndCopy? || step.Submit? || step.PublishTurn?
    ensures var m := Next(s, step).m;
            m.cancellation == s.m.cancellation && m.staleArmed == s.m.staleArmed && m.staleInjected == s.m.staleInjected
  {
  }

  lemma CancelUnnoted(b: Books, s: Sys, step: Step)
    requires !step.CallCancel? && !step.TakeWork? && !step.ArmInjection?
    ensures var n := Note(b, s, step);
            && n.cancel == b.cancel && n.turnCancel == b.turnCancel && n.injected == b.injected
            && n.armed == b.armed && n.injections == b.injections
  {
  }

  lemma CancelKept(h: History, step: Step)
    requires CancelInv(h)
    ensures CancelInv(NextHistory(h, step))
  {
    if step.TakeWork? {
      CancelByTurn(h);
    } else if step.CallCancel? || step.ArmInjection? {
      CancelByCalls(h, step);
    } else if TouchesMailbox(step) {
      CancelElsewhere(h, step);
    } else {
      CancelStays(h, step);
    }
  }

  lemma CancelStays(h: History, step: Step)
    requires CancelInv(h) && !TouchesMailbox(step)
    ensures CancelInv(NextHistory(h, step))
  {
    MailboxStays(h.sys, step);
    if step.Execute? {
      assert !NextHistory(h, step).sys.worker.Turn?;
    } else {
      HandsStay(h.sys, step);
    }
    CancelUnnoted(h.books, h.sys, step);
  }

  /** One answer more: the worker's rule and the books' agree. */
  lemma AnswerTracked(published: seq<Response>, r: Response)
    ensures var (t, u) := (Track(published), Track(published + [r]));
            && u.active == NextActive(t.active, Some(r))
            && u.last == if t.active.Some? && u.active.None? then t.active else t.last
  {
    assert (published + [r])[..|published|] == published;
  }

  lemma PublishEffect(s: Sys, deadline: Option<nat>)
    requires s.worker.Finished?
    ensures var (m, active) := (Next(s, PublishTurn(deadline)).m, NextActive(s.worker.previous, s.worker.response));
            && m.active == active
            && m.lastTerminal == (if s.worker.previous.Some? && active.None? then s.worker.previous else s.m.lastTerminal)
            && m.deadline == (if active.Some? then deadline else None)
  {
  }

  lemma ActiveByPublish(h: History, deadline: Option<nat>)
    requires TokenInv(h.sys) && ActiveInv(h)
    ensures ActiveInv(NextHistory(h, PublishTurn(deadline)))
  {
    if h.sys.worker.Finished? {
      PublishEffect(h.sys, deadline);
      assert h.sys.worker.previous == h.sys.m.active;
      if h.sys.worker.response.Some? {
        AnswerTracked(h.books.published, h.sys.worker.response.value);
      }
    } else {
      assert NextHistory(h, PublishTurn(deadline)) == h;
    }
  }

  lemma ActiveStays(s: Sys, step: Step)
    requires TouchesMailbox(step) && !step.PublishTurn?
    ensures Lasting(Next(s, step).m, s.m)
  {
    if step.Drain? && s.runner.Draining? {
      assert Lasting(TakeResponse(s.m, s.runner.id, s.runner.room).mailbox, s.m);
    } else if step.TakeWork? {
      assert Lasting(WorkerTake(s.m).mailbox, s.m);
    }
  }

  /** What only a publication changes. */
  predicate Lasting(m: Mailbox, before: Mailbox) {
    m.active == before.active && m.lastTerminal == before.lastTerminal && m.deadline == before.deadline
  }

  lemma PublishedStays(b: Books, s: Sys, step: Step)
    requires !step.PublishTurn?
    ensures Note(b, s, step).published == b.published && Note(b, s, step).deadline == b.deadline
  {
  }

  lemma ActiveKept(h: History, step: Step)
    requires TokenInv(h.sys) && ActiveInv(h)
    ensures ActiveInv(NextHistory(h, step))
  {
    if step.PublishTurn? {
      ActiveByPublish(h, step.deadline);
    } else {
      PublishedStays(h.books, h.sys, step);
      if TouchesMailbox(step) {
        ActiveStays(h.sys, step);
      } else {
        MailboxStays(h.sys, step);
      }
    }
  }

  predicate BooksInv(h: History) {
    && CallInv(h) && CommandInv(h) && AnswerInv(h) && ConsumedInv(h)
    && DeliveredInv(h) && WrittenInv(h) && CancelInv(h) && ActiveInv(h)
  }

  lemma StepKeepsBooks(h: History, step: Step)
    requires TokenInv(h.sys) && BooksInv(h)
    ensures BooksInv(NextHistory(h, step))
  {
    CallsKept(h, step);
    CommandsKept(h, step);
    AnswersKept(h, step);
    ConsumedKept(h, step);
    DeliveredKept(h, step);
    WrittenKept(h, step);
    CancelKept(h, step);
    ActiveKept(h, step);
  }

  lemma NoBooksFit(h: History)
    requires h.sys.m == NewMailbox() && h.sys.runner == Free && h.sys.worker == Sleeping
    requires h.sys.delivered == [] && h.sys.log == [] && h.books == NoBooks()
    ensures BooksInv(h)
  {
  }

  lemma {:induction false} BooksAreKept(trace: seq<Step>)
    ensures BooksInv(Histories(trace)) && Inv(Histories(trace).sys)
  {
    if trace == [] {
      var h := Histories(trace);
      InitInv(h.sys);
      NoBooksFit(h);
    } else {
      var h, step := Histories(trace[..|trace| - 1]), trace[|trace| - 1];
      BooksAreKept(trace[..|trace| - 1]);
      StepKeepsInv(h.sys, step);
      StepKeepsBooks(h, step);
    }
  }

  /** In every run the commands the worker executes are those the runner's calls
      submitted, in order; what is published is what the backend answered to them, in
      order and unchanged; what the runner takes is what was published, in order; and
      what it delivers is what it took for the id it asked for, to the call that asked.
      So an error is delivered exactly where the backend reported one for that id. */
  lemma AnswersArriveUnchanged(trace: seq<Step>)
    ensures var (s, b) := (Histories(trace).sys, Histories(trace).books);
            && b.executed <= b.submitted && |b.answers| == |b.executed|
            && b.published <= b.answers
            && Responses(b.consumed) <= b.published
            && Deliveries(s.delivered) <= Matching(b.consumed)
            && |Matching(b.consumed)| <= |s.delivered| + 1
  {
    BooksAreKept(trace);
    DeliveriesCount(Histories(trace).sys.delivered);
  }

  lemma {:induction false} DeliveriesCount(delivered: seq<Delivery>)
    ensures |Deliveries(delivered)| == |delivered|
  {
    if delivered == [] {
    } else {
      DeliveriesCount(delivered[..|delivered| - 1]);
    }
  }

  /** In every run the scan storage's log is what backend polls wrote since the last scan
      start, less what the current poll has still to write. */
  lemma WritesArrive(trace: seq<Step>)
    ensures var (s, b) := (Histories(trace).sys, Histories(trace).books);
            s.log + HeldWrites(s.worker) == b.written
  {
    BooksAreKept(trace);
  }

  /** In every run the cancellation slot holds the last one asked for since the worker's
      last turn, the worker's turn has the one it found, an armed injection goes off once
      and only on a poll for another operation, and the active operation, the last to end
      and the deadline are what the published answers and turns say. */
  lemma MailboxFollowsBooks(trace: seq<Step>)
    ensures CancelInv(Histories(trace)) && ActiveInv(Histories(trace))
  {
    BooksAreKept(trace);
  }

  /** The books cover every run of the system. */
  lemma {:induction false} HistoriesAreRuns(trace: seq<Step>)
    ensures Histories(trace).sys == Run(Init(), trace)
  {
    if trace == [] {
    } else {
      var n := |trace| - 1;
      HistoriesAreRuns(trace[..n]);
      RunThenStep(Init(), trace[..n], trace[n]);
      assert trace[..n] + [trace[n]] == trace;
    }
  }
}
