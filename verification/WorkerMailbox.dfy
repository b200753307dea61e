/** The one-slot mailbox between the runner's proxy and the budgeted worker
    task, and the scan storage both of them touch.  Each function on `Mailbox`
    is one critical section of the source. */
module WorkerMailbox {
  import opened Common
  import opened WaitBridge

  type OperationId = nat

  const SCAN_CAPACITY: nat := 32

  datatype Request = Scan | OtherRequest

  datatype Command = Start(id: OperationId, request: Request) | Poll(id: OperationId)

  /** What a backend poll reports: an error or a report with its disposition. */
  datatype PollResult = PollFailed | Pending | BudgetExhausted | CompleteScan(count: nat) | CompleteOther

  datatype Response = Started(id: OperationId, ok: bool) | Polled(id: OperationId, result: PollResult)

  datatype ScanEntry = ScanEntry(ssid: seq<nat>, bssid: nat, frequencyMhz: nat, rssiDbm: int, channel: nat)

  const EMPTY_ENTRY := ScanEntry([], 0, 0, 0, 0)

  datatype Mailbox = Mailbox(
    command: Option<Command>,
    response: Option<Response>,
    cancellation: Option<OperationId>,
    workerBusy: bool,
    active: Option<OperationId>,
    lastTerminal: Option<OperationId>,
    deadline: Option<nat>,
    staleDropped: u32,
    staleInjected: u32,
    staleArmed: bool)

  function NewMailbox(): Mailbox {
    Mailbox(None, None, None, false, None, None, None, 0, 0, false)
  }

  // ----- the runner's critical sections -----

  predicate CanAccept(m: Mailbox) {
    m.command.None? && !m.workerBusy && m.response.None?
  }

  predicate ScanDone(response: Response) {
    response.Polled? && response.result.CompleteScan?
  }

  datatype Taken = Taken(mailbox: Mailbox, response: Option<Response>, copyCount: Option<nat>)

  /** `take_response`: a response for another operation is dropped and counted;
      a finished scan keeps `workerBusy` up for the copy that follows. */
  function TakeResponse(m: Mailbox, expected: OperationId, room: nat): Taken {
    var emptied := m.(response := None);
    match m.response
    case None => Taken(emptied, None, None)
    case Some(r) =>
      if r.id != expected then
        Taken(emptied.(staleDropped := SaturatingIncrement(m.staleDropped)), Some(r), None)
      else if ScanDone(r) then
        Taken(emptied.(workerBusy := true), Some(r), Some(Min(Min(r.result.count, room), SCAN_CAPACITY)))
      else Taken(emptied, Some(r), None)
  }

  function Arm(m: Mailbox): Mailbox {
    if m.lastTerminal.None? || m.staleArmed then m else m.(staleArmed := true)
  }

  // ----- the worker's critical sections -----

  datatype Work = Work(mailbox: Mailbox, cancel: Option<OperationId>, command: Option<Command>,
                       previous: Option<OperationId>, injected: Option<OperationId>)

  /** The worker empties the command and cancellation slots; an armed injection
      replaces a poll for an operation other than the last terminal one. */
  function WorkerTake(m: Mailbox): Work {
    var inject := m.command.Some? && m.command.value.Poll? && m.lastTerminal.Some?
                  && m.staleArmed && m.lastTerminal.value != m.command.value.id;
    Work(m.(cancellation := None, command := None,
            staleArmed := m.staleArmed && !inject,
            staleInjected := if inject then SaturatingIncrement(m.staleInjected) else m.staleInjected,
            workerBusy := m.cancellation.Some? || m.command.Some?),
         m.cancellation, m.command, m.active, if inject then m.lastTerminal else None)
  }

  function NextActive(previous: Option<OperationId>, response: Option<Response>): Option<OperationId> {
    if response.None? then previous
    else if previous.Some? && previous.value != response.value.id then previous
    else match response.value
      case Started(id, ok) => if ok then Some(id) else None
      case Polled(id, result) => if result.Pending? || result.BudgetExhausted? then Some(id) else None
  }

  /** The worker publishes its turn.  `deadline` is what the backend reports for
      the operation that stays active. */
  function Publish(m: Mailbox, previous: Option<OperationId>, response: Option<Response>, deadline: Option<nat>): Mailbox {
    var active := NextActive(previous, response);
    m.(lastTerminal := if previous.Some? && active.None? then previous else m.lastTerminal,
       workerBusy := false,
       active := active,
       deadline := if active.Some? then deadline else None,
       response := if response.Some? then response else m.response)
  }

  /** An operation keeps or loses the active identity; it never hands it to
      another one, and it loses it exactly when its own response is terminal. */
  lemma ActiveNeverSwitches(previous: Option<OperationId>, response: Option<Response>)
    ensures var active := NextActive(previous, response);
            && (previous.Some? && active.Some? ==> active == previous)
            && (previous.Some? && active.None? <==>
                  previous.Some? && response.Some? && response.value.id == previous.value
                  && response.value !in {Started(previous.value, true), Polled(previous.value, Pending),
                                         Polled(previous.value, BudgetExhausted)})
            && (previous.None? ==>
                  (active.Some? <==> response.Some? && (response.value == Started(response.value.id, true)
                                                        || response.value == Polled(response.value.id, Pending)
                                                        || response.value == Polled(response.value.id, BudgetExhausted))))
            && (previous.None? && active.Some? ==> response.value.id == active.value)
  {
  }

  // ----- what the proxy's poll returns -----

  datatype PollReturn = Waiting | Report(result: PollResult) | StartError

  predicate Answers(m: Mailbox, id: OperationId) {
    m.response.Some? && m.response.value.id == id
  }

  /** The mailbox once the response slot has been drained for `id`. */
  function Drained(m: Mailbox, id: OperationId): Mailbox {
    m.(response := None,
       staleDropped := if m.response.Some? && m.response.value.id != id
                       then SaturatingIncrement(m.staleDropped) else m.staleDropped,
       workerBusy := m.workerBusy && !(Answers(m, id) && ScanDone(m.response.value)))
  }

  /** The worker state as the source holds it: mailbox, semaphore count and scan array. */
  class IncrementalWorkerState {
    var mailbox: Mailbox
    var wake: nat
    const scan: array<ScanEntry>

    ghost predicate Valid()
      reads this
    {
      scan.Length == SCAN_CAPACITY
    }

    constructor ()
      ensures Valid() && fresh(scan)
      ensures mailbox == NewMailbox() && wake == 0
      ensures forall i :: 0 <= i < SCAN_CAPACITY ==> scan[i] == EMPTY_ENTRY
    {
      mailbox, wake := NewMailbox(), 0;
      scan := new ScanEntry[SCAN_CAPACITY](_ => EMPTY_ENTRY);
    }

    method Submit(command: Command) returns (accepted: bool)
      modifies this
      ensures accepted == CanAccept(old(mailbox))
      ensures mailbox == if accepted then old(mailbox).(command := Some(command)) else old(mailbox)
      ensures wake == old(wake) + if accepted then 1 else 0
    {
      if mailbox.command.Some? || mailbox.workerBusy || mailbox.response.Some? {
        accepted := false;
      } else {
        mailbox := mailbox.(command := Some(command));
        accepted := true;
        wake := wake + 1;
      }
    }

    method RequestCancel(id: OperationId)
      modifies this
      ensures mailbox == old(mailbox).(cancellation := Some(id))
      ensures wake == old(wake) + 1
    {
      mailbox := mailbox.(cancellation := Some(id));
      wake := wake + 1;
    }

    /** Overwrite the storage with empty entries. */
    method ResetScan()
      requires Valid()
      modifies scan
      ensures forall i :: 0 <= i < SCAN_CAPACITY ==> scan[i] == EMPTY_ENTRY
    {
      for i := 0 to scan.Length
        invariant forall k :: 0 <= k < i ==> scan[k] == EMPTY_ENTRY
      {
        scan[i] := EMPTY_ENTRY;
      }
    }

    /** Copy the first `count` entries, leaving the rest of `output` as it was. */
    method CopyTo(output: array<ScanEntry>, count: nat)
      requires Valid()
      requires count <= output.Length && count <= SCAN_CAPACITY && output != scan
      modifies output
      ensures output[..count] == scan[..count]
      ensures output[count..] == old(output[count..])
    {
      for i := 0 to count
        invariant output[..i] == scan[..i]
        invariant output[i..] == old(output[i..])
      {
        output[i] := scan[i];
        assert output[..i + 1] == output[..i] + [output[i]];
        assert scan[..i + 1] == scan[..i] + [scan[i]];
      }
    }

    method Take(expected: OperationId, output: array<ScanEntry>) returns (response: Option<Response>)
      requires Valid() && output != scan
      modifies this, output
      ensures wake == old(wake)
      ensures var taken := TakeResponse(old(mailbox), expected, output.Length);
              && response == taken.response
              && mailbox == (if taken.copyCount.Some? then taken.mailbox.(workerBusy := false) else taken.mailbox)
              && (taken.copyCount.None? ==> output[..] == old(output[..]))
              && (taken.copyCount.Some? ==>
                    && output[..taken.copyCount.value] == scan[..taken.copyCount.value]
                    && output[taken.copyCount.value..] == old(output[taken.copyCount.value..]))
    {
      response := mailbox.response;
      var before := mailbox;
      mailbox := mailbox.(response := None);
      if response.None? {
        return;
      }
      if response.value.id != expected {
        mailbox := mailbox.(staleDropped := SaturatingIncrement(before.staleDropped));
        return;
      }
      if response.value.Polled? && response.value.result.CompleteScan? {
        mailbox := mailbox.(workerBusy := true);
        CopyTo(output, Min(Min(response.value.result.count, output.Length), SCAN_CAPACITY));
        mailbox := mailbox.(workerBusy := false);
      }
    }

    /** The proxy's poll: drain, then submit.  With no worker running beside it
        the loop takes at most one response: a stale one is dropped and counted
        and the poll goes on; a matching one decides the result. */
    method PollProxy(id: OperationId, output: array<ScanEntry>) returns (r: PollReturn)
      requires Valid() && output != scan
      modifies this, output
      ensures r == if !Answers(old(mailbox), id) || old(mailbox.response) == Some(Started(id, true)) then Waiting
                   else if old(mailbox.response.value.Polled?) then Report(old(mailbox.response.value.result))
                   else StartError
      ensures mailbox == (var drained := Drained(old(mailbox), id);
                          if r.Waiting? && CanAccept(drained) then drained.(command := Some(Poll(id))) else drained)
      ensures wake == old(wake) + if r.Waiting? && CanAccept(Drained(old(mailbox), id)) then 1 else 0
      ensures var count := if r.Report? && r.result.CompleteScan?
                           then Min(Min(r.result.count, output.Length), SCAN_CAPACITY) else 0;
              output[..count] == scan[..count] && output[count..] == old(output[count..])
    {
      var taken := Take(id, output);
      while taken.Some? && taken.value.id != id
        invariant wake == old(wake) && mailbox == Drained(old(mailbox), id)
        invariant taken == old(mailbox.response) || (taken.None? && !Answers(old(mailbox), id))
        invariant taken.None? || taken.value.id != id ==> output[..] == old(output[..])
        invariant taken.Some? && taken.value.id == id ==>
                    var count := if ScanDone(taken.value) then Min(Min(taken.value.result.count, output.Length), SCAN_CAPACITY) else 0;
                    output[..count] == scan[..count] && output[count..] == old(output[count..])
        decreases taken.Some?
      {
        taken := Take(id, output);
      }
      if taken.Some? {
        match taken.value
        case Started(_, ok) =>
          if !ok {
            return StartError;
          }
        case Polled(_, result) =>
          return Report(result);
      }
      var _ := Submit(Poll(id));
      r := Waiting;
    }

    method TakeWork() returns (work: Work)
      modifies this`mailbox
      ensures work == WorkerTake(old(mailbox)) && mailbox == work.mailbox
    {
      var before := mailbox;
      var injected := None;
      mailbox := mailbox.(cancellation := None, command := None);
      if before.command.Some? && before.command.value.Poll? && before.lastTerminal.Some? {
        if before.staleArmed && before.lastTerminal.value != before.command.value.id {
          injected := before.lastTerminal;
          mailbox := mailbox.(staleArmed := false, staleInjected := SaturatingIncrement(before.staleInjected));
        }
      }
      mailbox := mailbox.(workerBusy := before.cancellation.Some? || before.command.Some?);
      work := Work(mailbox, before.cancellation, before.command, before.active, injected);
    }

    method PublishTurn(previous: Option<OperationId>, response: Option<Response>, deadline: Option<nat>)
      modifies this`mailbox
      ensures mailbox == Publish(old(mailbox), previous, response, deadline)
    {
      var active := NextActive(previous, response);
      if previous.Some? && active.None? {
        mailbox := mailbox.(lastTerminal := previous);
      }
      mailbox := mailbox.(workerBusy := false, active := active,
                          deadline := if active.Some? then deadline else None);
      if response.Some? {
        mailbox := mailbox.(response := response);
      }
    }
  }
}
