/** Every interleaving of key management, starts, updates, finishes, destroys,
    de-initialisations and resets, with any number of calls held between their
    critical sections: a start that has read its key but holds no slot yet, and
    updates whose hardware step is still running. */
module CryptoRuns {
  import opened Common
  import opened CryptoHandles
  import opened CryptoTables
  import opened CryptoOps

  datatype Flight =
    | Starting(engine: Engine, key: ShortKey)
    | Updating(engine: Engine, index: SlotIndex, epoch: nat, key: ShortKey, input: Bytes)
    | Landed

  /** A successful start and a successful finish.  `epoch` counts the takings
      of the slot, which the 24-bit generation only shows modulo its period. */
  datatype Issue = Issue(engine: Engine, index: SlotIndex, epoch: nat, key: Bytes)
  datatype Finish = Finish(engine: Engine, handle: u32, index: SlotIndex, epoch: nat, output: Bytes)

  datatype Sys = Sys(
    keys: Keys,
    hashes: Table,
    macs: Table,
    flights: seq<Flight>,
    issued: seq<Issue>,
    finished: seq<Finish>)

  datatype Step =
    | ManageKeys(call: KeyCall)
    | StartRead(engine: Engine, keyslot: u32)
    | StartAllocate(flight: nat)
    | UpdateBegin(engine: Engine, handle: u32, input: Bytes)
    | UpdateEnd(flight: nat, hardwareOk: bool)
    | FinishCall(engine: Engine, handle: u32, capacity: nat)
    | DestroyMac(handle: u32)
    | Deinit(engine: Engine)
    | ResetAll

  function Init(): Sys {
    Sys(NewKeys(), NewTable(), NewTable(), [], [], [])
  }

  function TableOf(s: Sys, e: Engine): Table {
    if e.HmacSm3? then s.hashes else s.macs
  }

  function SetTable(s: Sys, e: Engine, t: Table): Sys {
    if e.HmacSm3? then s.(hashes := t) else s.(macs := t)
  }

  function KindOf(e: Engine): u32 {
    if e.HmacSm3? then KEYSLOT_HMAC else KEYSLOT_MCIPHER
  }

  predicate GoodFlight(s: Sys, f: Flight) {
    match f
    case Landed => true
    case Starting(e, key) => |key| >= 1 && (e.AesCmac? ==> |key| == 16)
    case Updating(e, index, epoch, key, input) =>
      var h := TableOf(s, e).history[index];
      && epoch in h.keys && h.keys[epoch] == key
      && epoch in h.inputs && h.inputs[epoch] == input
  }

  predicate GoodIssue(s: Sys, i: Issue) {
    var h := TableOf(s, i.engine).history[i.index];
    i.epoch in h.keys && h.keys[i.epoch] == i.key
  }

  /** The output is what the update that ended in the slot's taking computed, and
      the handle names that taking. */
  predicate GoodFinish(hw: Hardware, s: Sys, f: Finish) {
    && f.handle == EncodeHandle(f.index, GenerationAfter(f.epoch))
    && var h := TableOf(s, f.engine).history[f.index];
       && f.epoch in h.keys && f.epoch in h.inputs && Ended(h, f.epoch)
       && f.output == ResultOf(hw, f.engine, h, f.epoch)
  }

  predicate TablesInv(hw: Hardware, s: Sys) {
    KeysInv(s.keys) && TableInv(hw, HmacSm3, s.hashes) && TableInv(hw, AesCmac, s.macs)
  }

  predicate LogInv(hw: Hardware, s: Sys) {
    && (forall i :: 0 <= i < |s.flights| ==> GoodFlight(s, s.flights[i]))
    && (forall i :: 0 <= i < |s.issued| ==> GoodIssue(s, s.issued[i]))
    && (forall i :: 0 <= i < |s.finished| ==> GoodFinish(hw, s, s.finished[i]))
  }

  predicate Inv(hw: Hardware, s: Sys) {
    TablesInv(hw, s) && LogInv(hw, s)
  }

  // ----- the steps -----

  function StartReadStep(s: Sys, e: Engine, keyslot: u32): Sys
  {
    var key := KeyslotMaterial(s.keys, keyslot, KindOf(e));
    if key.None? || (e.AesCmac? && |key.value| != 16) then s
    else s.(flights := s.flights + [Starting(e, key.value)])
  }

  function StartAllocateStep(s: Sys, i: nat): Sys
    requires i < |s.flights| && s.flights[i].Starting?
  {
    var f := s.flights[i];
    var t := TableOf(s, f.engine);
    var free := FreeOp(t.ops);
    var landed := SetTable(s, f.engine, AllocateIn(t, f.key)).(flights := s.flights[i := Landed]);
    if free.None? then landed
    else landed.(issued := s.issued + [Issue(f.engine, free.value, t.history[free.value].epoch + 1, f.key)])
  }

  function UpdateBeginStep(s: Sys, e: Engine, handle: u32, input: Bytes): Sys
  {
    var t := TableOf(s, e);
    var begun := BeginUpdate(t.ops, handle).value;
    if begun.None? then s
    else
      var b := begun.value;
      SetTable(s, e, BeginIn(t, handle, input))
      .(flights := s.flights + [Updating(e, b.index, t.history[b.index].epoch, b.key, input)])
  }

  function UpdateEndStep(hw: Hardware, s: Sys, i: nat, ok: bool): Sys
    requires i < |s.flights| && s.flights[i].Updating?
  {
    var f := s.flights[i];
    var t := TableOf(s, f.engine);
    var ended := if ok then CompleteIn(t, f.index, f.epoch, Mac(hw, f.engine, f.key, f.input))
                 else t.(ops := FailUpdate(t.ops, f.index, GenerationAfter(f.epoch)));
    SetTable(s, f.engine, ended).(flights := s.flights[i := Landed])
  }

  function FinishStep(s: Sys, e: Engine, handle: u32, capacity: nat): Sys
  {
    if capacity < LengthOf(e) then s
    else
      var t := TableOf(s, e);
      var r := TakeResult(t.ops, handle);
      if r.value.None? then s
      else
        var taken := r.value.value;
        var cleared := SetTable(s, e, t.(ops := r.ops));
        if taken.length != LengthOf(e) then cleared
        else cleared.(finished := s.finished + [Finish(e, handle, Index(handle), t.history[Index(handle)].epoch,
                                                       taken.bytes[..taken.length])])
  }

  function Next(hw: Hardware, s: Sys, step: Step): Sys
  {
    match step
    case ManageKeys(call) => s.(keys := KeyStep(s.keys, call))
    case StartRead(e, keyslot) => StartReadStep(s, e, keyslot)
    case StartAllocate(i) => if i < |s.flights| && s.flights[i].Starting? then StartAllocateStep(s, i) else s
    case UpdateBegin(e, handle, input) => UpdateBeginStep(s, e, handle, input)
    case UpdateEnd(i, ok) => if i < |s.flights| && s.flights[i].Updating? then UpdateEndStep(hw, s, i, ok) else s
    case FinishCall(e, handle, capacity) => FinishStep(s, e, handle, capacity)
    case DestroyMac(handle) => s.(macs := s.macs.(ops := DestroyOp(s.macs.ops, handle).ops))
    case Deinit(e) => SetTable(s, e, TableOf(s, e).(ops := ClearAll(TableOf(s, e).ops)))
    case ResetAll => s.(keys := ResetKeyslots(s.keys),
                        hashes := s.hashes.(ops := ClearAll(s.hashes.ops)),
                        macs := s.macs.(ops := ClearAll(s.macs.ops)))
  }

  function Run(hw: Hardware, s: Sys, trace: seq<Step>): Sys
    decreases |trace|
  {
    if trace == [] then s else Run(hw, Next(hw, s, trace[0]), trace[1..])
  }

  // ----- every step keeps the invariants -----

  predicate SysGrows(s: Sys, later: Sys) {
    TableGrows(s.hashes, later.hashes) && TableGrows(s.macs, later.macs)
  }

  lemma FlightSurvives(s: Sys, later: Sys, f: Flight)
    requires SysGrows(s, later) && GoodFlight(s, f)
    ensures GoodFlight(later, f)
  {
  }

  lemma IssueSurvives(s: Sys, later: Sys, i: Issue)
    requires SysGrows(s, later) && GoodIssue(s, i)
    ensures GoodIssue(later, i)
  {
  }

  lemma FinishSurvives(hw: Hardware, s: Sys, later: Sys, f: Finish)
    requires SysGrows(s, later) && GoodFinish(hw, s, f)
    ensures GoodFinish(hw, later, f)
  {
  }

  /** Growing histories keep everything the logs say; a flight may land and each
      log may gain one good entry. */
  lemma LogSurvives(hw: Hardware, s: Sys, later: Sys)
    requires LogInv(hw, s) && SysGrows(s, later)
    requires |s.flights| <= |later.flights| <= |s.flights| + 1
    requires forall i :: 0 <= i < |s.flights| ==> later.flights[i] == s.flights[i] || later.flights[i].Landed?
    requires |later.flights| > |s.flights| ==> GoodFlight(later, later.flights[|s.flights|])
    requires s.issued <= later.issued && |later.issued| <= |s.issued| + 1
    requires |later.issued| > |s.issued| ==> GoodIssue(later, later.issued[|s.issued|])
    requires s.finished <= later.finished && |later.finished| <= |s.finished| + 1
    requires |later.finished| > |s.finished| ==> GoodFinish(hw, later, later.finished[|s.finished|])
    ensures LogInv(hw, later)
  {
    forall i | 0 <= i < |later.flights| ensures GoodFlight(later, later.flights[i]) {
      if i < |s.flights| {
        FlightSurvives(s, later, s.flights[i]);
      }
    }
    forall i | 0 <= i < |later.issued| ensures GoodIssue(later, later.issued[i]) {
      if i < |s.issued| {
        IssueSurvives(s, later, s.issued[i]);
      }
    }
    forall i | 0 <= i < |later.finished| ensures GoodFinish(hw, later, later.finished[i]) {
      if i < |s.finished| {
        FinishSurvives(hw, s, later, s.finished[i]);
      }
    }
  }

  lemma SetTableKeeps(hw: Hardware, s: Sys, e: Engine, t: Table)
    requires TablesInv(hw, s) && TableInv(hw, e, t) && TableGrows(TableOf(s, e), t)
    ensures TablesInv(hw, SetTable(s, e, t)) && SysGrows(s, SetTable(s, e, t))
  {
  }

  // What each step does to the tables, what it adds to the logs, and both together.

  lemma StartReadAdds(s: Sys, e: Engine, keyslot: u32)
    requires KeysInv(s.keys)
    ensures var next := StartReadStep(s, e, keyslot);
            |next.flights| > |s.flights| ==> GoodFlight(next, next.flights[|s.flights|])
  {
  }

  lemma StartReadKeeps(hw: Hardware, s: Sys, e: Engine, keyslot: u32)
    requires LogInv(hw, s) && KeysInv(s.keys)
    ensures LogInv(hw, StartReadStep(s, e, keyslot))
  {
    StartReadAdds(s, e, keyslot);
    LogSurvives(hw, s, StartReadStep(s, e, keyslot));
  }

  lemma StartAllocateTables(hw: Hardware, s: Sys, i: nat)
    requires TablesInv(hw, s) && i < |s.flights| && s.flights[i].Starting?
    ensures TablesInv(hw, StartAllocateStep(s, i)) && SysGrows(s, StartAllocateStep(s, i))
  {
    var f := s.flights[i];
    AllocateKeeps(hw, f.engine, TableOf(s, f.engine), f.key);
    SetTableKeeps(hw, s, f.engine, AllocateIn(TableOf(s, f.engine), f.key));
  }

  lemma StartAllocateAdds(hw: Hardware, s: Sys, i: nat)
    requires TablesInv(hw, s) && i < |s.flights| && s.flights[i].Starting?
    ensures var next := StartAllocateStep(s, i);
            |next.issued| > |s.issued| ==> GoodIssue(next, next.issued[|s.issued|])
  {
    var f := s.flights[i];
    if FreeOp(TableOf(s, f.engine).ops).Some? {
      AllocateReturns(hw, f.engine, TableOf(s, f.engine), f.key);
    }
  }

  lemma StartAllocateKeeps(hw: Hardware, s: Sys, i: nat)
    requires LogInv(hw, s) && i < |s.flights| && s.flights[i].Starting?
    requires var next := StartAllocateStep(s, i);
             SysGrows(s, next) && (|next.issued| > |s.issued| ==> GoodIssue(next, next.issued[|s.issued|]))
    ensures LogInv(hw, StartAllocateStep(s, i))
  {
    LogSurvives(hw, s, StartAllocateStep(s, i));
  }

  lemma UpdateBeginTables(hw: Hardware, s: Sys, e: Engine, handle: u32, input: Bytes)
    requires TablesInv(hw, s)
    ensures TablesInv(hw, UpdateBeginStep(s, e, handle, input)) && SysGrows(s, UpdateBeginStep(s, e, handle, input))
  {
    BeginKeeps(hw, e, TableOf(s, e), handle, input);
    SetTableKeeps(hw, s, e, BeginIn(TableOf(s, e), handle, input));
  }

  lemma UpdateBeginAdds(hw: Hardware, s: Sys, e: Engine, handle: u32, input: Bytes)
    requires TablesInv(hw, s)
    ensures var next := UpdateBeginStep(s, e, handle, input);
            |next.flights| > |s.flights| ==> GoodFlight(next, next.flights[|s.flights|])
  {
    if BeginUpdate(TableOf(s, e).ops, handle).value.Some? {
      BeginReturns(hw, e, TableOf(s, e), handle, input);
    }
  }

  lemma UpdateBeginKeeps(hw: Hardware, s: Sys, e: Engine, handle: u32, input: Bytes)
    requires LogInv(hw, s)
    requires var next := UpdateBeginStep(s, e, handle, input);
             SysGrows(s, next) && (|next.flights| > |s.flights| ==> GoodFlight(next, next.flights[|s.flights|]))
    ensures LogInv(hw, UpdateBeginStep(s, e, handle, input))
  {
    LogSurvives(hw, s, UpdateBeginStep(s, e, handle, input));
  }

  lemma UpdateEndTables(hw: Hardware, s: Sys, i: nat, ok: bool)
    requires TablesInv(hw, s) && GoodHardware(hw) && i < |s.flights| && s.flights[i].Updating?
    requires GoodFlight(s, s.flights[i])
    ensures TablesInv(hw, UpdateEndStep(hw, s, i, ok)) && SysGrows(s, UpdateEndStep(hw, s, i, ok))
  {
    var f := s.flights[i];
    var t := TableOf(s, f.engine);
    EndKeeps(hw, f.engine, t, f.index, f.epoch);
    var ended := TableOf(UpdateEndStep(hw, s, i, ok), f.engine);
    SetTableKeeps(hw, s, f.engine, ended);
  }

  lemma UpdateEndKeeps(hw: Hardware, s: Sys, i: nat, ok: bool)
    requires LogInv(hw, s) && i < |s.flights| && s.flights[i].Updating?
    requires SysGrows(s, UpdateEndStep(hw, s, i, ok))
    ensures LogInv(hw, UpdateEndStep(hw, s, i, ok))
  {
    LogSurvives(hw, s, UpdateEndStep(hw, s, i, ok));
  }

  lemma FinishTables(hw: Hardware, s: Sys, e: Engine, handle: u32, capacity: nat)
    requires TablesInv(hw, s)
    ensures TablesInv(hw, FinishStep(s, e, handle, capacity)) && SysGrows(s, FinishStep(s, e, handle, capacity))
  {
    var t := TableOf(s, e);
    var cleared := t.(ops := TakeResult(t.ops, handle).ops);
    var next := FinishStep(s, e, handle, capacity);
    if next != s {
      assert TableInv(hw, e, cleared) by {
        ClearKeeps(hw, e, t, handle);
      }
      SetTableKeeps(hw, s, e, cleared);
      var emptied := SetTable(s, e, cleared);
      assert next.keys == emptied.keys && next.hashes == emptied.hashes && next.macs == emptied.macs;
    }
  }

  lemma FinishAdds(hw: Hardware, s: Sys, e: Engine, handle: u32, capacity: nat)
    requires TablesInv(hw, s)
    ensures var next := FinishStep(s, e, handle, capacity);
            |next.finished| > |s.finished| ==> GoodFinish(hw, next, next.finished[|s.finished|])
  {
    if TakeResult(TableOf(s, e).ops, handle).value.Some? {
      TakenResultIsExact(hw, e, TableOf(s, e), handle);
    }
  }

  lemma FinishKeeps(hw: Hardware, s: Sys, e: Engine, handle: u32, capacity: nat)
    requires LogInv(hw, s)
    requires var next := FinishStep(s, e, handle, capacity);
             SysGrows(s, next) && (|next.finished| > |s.finished| ==> GoodFinish(hw, next, next.finished[|s.finished|]))
    ensures LogInv(hw, FinishStep(s, e, handle, capacity))
  {
    LogSurvives(hw, s, FinishStep(s, e, handle, capacity));
  }

  lemma ClearTables(hw: Hardware, s: Sys, step: Step)
    requires TablesInv(hw, s) && (step.DestroyMac? || step.Deinit?)
    ensures TablesInv(hw, Next(hw, s, step))
  {
    match step
    case DestroyMac(handle) => DestroyTables(hw, s, handle);
    case Deinit(e) => DeinitTables(hw, s, e);
  }

  lemma SameHistoryGrows(t: Table, later: Table)
    requires later.history == t.history
    ensures TableGrows(t, later)
  {
  }

  lemma DestroyTables(hw: Hardware, s: Sys, handle: u32)
    requires TablesInv(hw, s)
    ensures TablesInv(hw, Next(hw, s, DestroyMac(handle)))
  {
    var cleared := s.macs.(ops := DestroyOp(s.macs.ops, handle).ops);
    ClearKeeps(hw, AesCmac, s.macs, handle);
    SameHistoryGrows(s.macs, cleared);
    SetTableKeeps(hw, s, AesCmac, cleared);
  }

  lemma DeinitTables(hw: Hardware, s: Sys, e: Engine)
    requires TablesInv(hw, s)
    ensures TablesInv(hw, Next(hw, s, Deinit(e)))
  {
    var t := TableOf(s, e);
    ClearAllKeeps(hw, e, t);
    SameHistoryGrows(t, t.(ops := ClearAll(t.ops)));
    SetTableKeeps(hw, s, e, t.(ops := ClearAll(t.ops)));
  }

  lemma ResetTables(hw: Hardware, s: Sys)
    requires TablesInv(hw, s)
    ensures TablesInv(hw, Next(hw, s, ResetAll))
  {
    KeyStepKeepsInv(s.keys, ResetKeys);
    ClearAllKeeps(hw, HmacSm3, s.hashes);
    ClearAllKeeps(hw, AesCmac, s.macs);
  }

  lemma ClearKeepsLog(hw: Hardware, s: Sys, step: Step)
    requires LogInv(hw, s) && (step.DestroyMac? || step.Deinit? || step.ResetAll? || step.ManageKeys?)
    ensures LogInv(hw, Next(hw, s, step))
  {
    LogSurvives(hw, s, Next(hw, s, step));
  }

  lemma KeyTables(hw: Hardware, s: Sys, call: KeyCall)
    requires TablesInv(hw, s)
    ensures TablesInv(hw, Next(hw, s, ManageKeys(call)))
  {
    KeyStepKeepsInv(s.keys, call);
  }

  lemma SameTables(hw: Hardware, s: Sys, later: Sys)
    requires TablesInv(hw, s) && later.keys == s.keys && later.hashes == s.hashes && later.macs == s.macs
    ensures TablesInv(hw, later)
  {
  }

  lemma StepKeepsTables(hw: Hardware, s: Sys, step: Step)
    requires TablesInv(hw, s) && GoodHardware(hw)
    requires step.UpdateEnd? && step.flight < |s.flights| ==> GoodFlight(s, s.flights[step.flight])
    ensures TablesInv(hw, Next(hw, s, step))
  {
    var next := Next(hw, s, step);
    match step
    case ManageKeys(call) => KeyTables(hw, s, call);
    case StartRead(e, keyslot) => SameTables(hw, s, next);
    case StartAllocate(i) =>
      if i < |s.flights| && s.flights[i].Starting? {
        assert next == StartAllocateStep(s, i);
        StartAllocateTables(hw, s, i);
      } else {
        assert next == s;
      }
    case UpdateBegin(e, handle, input) =>
      assert next == UpdateBeginStep(s, e, handle, input);
      UpdateBeginTables(hw, s, e, handle, input);
    case UpdateEnd(i, ok) =>
      if i < |s.flights| && s.flights[i].Updating? {
        assert next == UpdateEndStep(hw, s, i, ok);
        UpdateEndTables(hw, s, i, ok);
      } else {
        assert next == s;
      }
    case FinishCall(e, handle, capacity) =>
      assert next == FinishStep(s, e, handle, capacity);
      FinishTables(hw, s, e, handle, capacity);
    case ResetAll => ResetTables(hw, s);
    case _ => ClearTables(hw, s, step);
  }

  lemma StartAllocateLog(hw: Hardware, s: Sys, i: nat)
    requires Inv(hw, s) && i < |s.flights| && s.flights[i].Starting?
    ensures LogInv(hw, StartAllocateStep(s, i))
  {
    StartAllocateTables(hw, s, i);
    StartAllocateAdds(hw, s, i);
    StartAllocateKeeps(hw, s, i);
  }

  lemma UpdateBeginLog(hw: Hardware, s: Sys, e: Engine, handle: u32, input: Bytes)
    requires Inv(hw, s)
    ensures LogInv(hw, UpdateBeginStep(s, e, handle, input))
  {
    UpdateBeginTables(hw, s, e, handle, input);
    UpdateBeginAdds(hw, s, e, handle, input);
    UpdateBeginKeeps(hw, s, e, handle, input);
  }

  lemma UpdateEndLog(hw: Hardware, s: Sys, i: nat, ok: bool)
    requires Inv(hw, s) && GoodHardware(hw) && i < |s.flights| && s.flights[i].Updating?
    ensures LogInv(hw, UpdateEndStep(hw, s, i, ok))
  {
    UpdateEndTables(hw, s, i, ok);
    UpdateEndKeeps(hw, s, i, ok);
  }

  lemma FinishLog(hw: Hardware, s: Sys, e: Engine, handle: u32, capacity: nat)
    requires Inv(hw, s)
    ensures LogInv(hw, FinishStep(s, e, handle, capacity))
  {
    FinishTables(hw, s, e, handle, capacity);
    FinishAdds(hw, s, e, handle, capacity);
    FinishKeeps(hw, s, e, handle, capacity);
  }

  lemma StepKeepsLog(hw: Hardware, s: Sys, step: Step)
    requires Inv(hw, s) && GoodHardware(hw)
    ensures LogInv(hw, Next(hw, s, step))
  {
    match step
    case StartRead(e, keyslot) => StartReadKeeps(hw, s, e, keyslot);
    case StartAllocate(i) =>
      if i < |s.flights| && s.flights[i].Starting? {
        StartAllocateLog(hw, s, i);
      }
    case UpdateBegin(e, handle, input) => UpdateBeginLog(hw, s, e, handle, input);
    case UpdateEnd(i, ok) =>
      if i < |s.flights| && s.flights[i].Updating? {
        UpdateEndLog(hw, s, i, ok);
      }
    case FinishCall(e, handle, capacity) => FinishLog(hw, s, e, handle, capacity);
    case _ => ClearKeepsLog(hw, s, step);
  }

  lemma {:induction false} RunKeepsInv(hw: Hardware, s: Sys, trace: seq<Step>)
    requires Inv(hw, s) && GoodHardware(hw)
    ensures Inv(hw, Run(hw, s, trace))
    decreases |trace|
  {
    if trace == [] {
    } else {
      var next := Next(hw, s, trace[0]);
      StepKeepsTables(hw, s, trace[0]);
      StepKeepsLog(hw, s, trace[0]);
      RunKeepsInv(hw, next, trace[1..]);
    }
  }

  /** Some interleaving leads from the initial state to `s`. */
  ghost predicate Reachable(hw: Hardware, s: Sys) {
    exists trace :: s == Run(hw, Init(), trace)
  }

  lemma InitInv(hw: Hardware)
    ensures Inv(hw, Init())
  {
  }

  lemma ReachableInv(hw: Hardware, s: Sys)
    requires GoodHardware(hw) && Reachable(hw, s)
    ensures Inv(hw, s)
  {
    var trace :| s == Run(hw, Init(), trace);
    InitInv(hw);
    RunKeepsInv(hw, Init(), trace);
  }

  lemma IssuedEpochIsPositive(hw: Hardware, s: Sys, issue: Issue)
    requires TablesInv(hw, s) && GoodIssue(s, issue)
    ensures issue.epoch >= 1
  {
    assert GoodHistory(TableOf(s, issue.engine).history[issue.index]);
  }

  /** Whatever destroys, de-initialisations, resets and re-allocations came in
      between, a successful finish returned what the update that ended in its slot
      computed.  That update belonged to a taking whole periods of 2^24 - 1 earlier
      or, if fewer takings lay between, to the one the handle names: then the output
      is the primitive applied to the key the start call read and to the input of the
      one update the handle let through.  The handle itself must not be a whole
      period old when it is used. */
  lemma FinishIsExact(hw: Hardware, s: Sys, i: nat, f: nat)
    requires GoodHardware(hw) && Reachable(hw, s)
    requires i < |s.issued| && f < |s.finished|
    requires s.issued[i].engine == s.finished[f].engine
    requires s.finished[f].handle == EncodeHandle(s.issued[i].index, GenerationAfter(s.issued[i].epoch))
    requires s.issued[i].epoch <= s.finished[f].epoch < s.issued[i].epoch + PERIOD
    ensures var issue := s.issued[i];
            var h := TableOf(s, issue.engine).history[issue.index];
            && s.finished[f].index == issue.index && s.finished[f].epoch == issue.epoch
            && issue.epoch in h.inputs && Ended(h, issue.epoch)
            && s.finished[f].output == ResultOf(hw, issue.engine, h, issue.epoch)
            && (issue.epoch - h.ends[issue.epoch] < PERIOD ==>
                  s.finished[f].output == Mac(hw, issue.engine, issue.key, h.inputs[issue.epoch]))
  {
    ReachableInv(hw, s);
    var issue, finish := s.issued[i], s.finished[f];
    IssuedEpochIsPositive(hw, s, issue);
    HandleNamesOneTaking(issue.index, issue.epoch, finish.index, finish.epoch);
    assert GoodIssue(s, issue) && GoodFinish(hw, s, finish);
  }

  /** The end of an update changes a table exactly when its slot is waiting for an end
      and has been taken a whole number of periods since the update began: so never
      a slot that was cleared, or taken again fewer than 2^24 - 1 times. */
  lemma EndLandsIff(hw: Hardware, s: Sys, i: nat, ok: bool)
    requires GoodHardware(hw) && Reachable(hw, s)
    requires i < |s.flights| && s.flights[i].Updating?
    ensures var f := s.flights[i];
            var t := TableOf(s, f.engine);
            Next(hw, s, UpdateEnd(i, ok)) != s.(flights := s.flights[i := Landed])
            <==> t.ops[f.index].state == 2 && (t.history[f.index].epoch - f.epoch) % PERIOD == 0
  {
    ReachableInv(hw, s);
    var f := s.flights[i];
    var t := TableOf(s, f.engine);
    assert GoodFlight(s, f);
    assert GoodOp(hw, f.engine, t.ops[f.index], t.history[f.index]) && GoodHistory(t.history[f.index]);
    GenerationsRepeat(f.epoch, t.history[f.index].epoch);
    EndChangesIff(t, f.index, f.epoch, Mac(hw, f.engine, f.key, f.input));
  }

  lemma EndChangesIff(t: Table, index: SlotIndex, epoch: nat, result: Bytes)
    requires |result| <= RESULT_BYTES
    ensures CompleteIn(t, index, epoch, result) != t
            <==> t.ops[index].state == 2 && t.ops[index].generation == GenerationAfter(epoch)
    ensures t.(ops := FailUpdate(t.ops, index, GenerationAfter(epoch))) != t
            <==> t.ops[index].state == 2 && t.ops[index].generation == GenerationAfter(epoch)
  {
    var op := t.ops[index];
    if op.state == 2 && op.generation == GenerationAfter(epoch) {
      assert CompleteIn(t, index, epoch, result).ops[index].state == 3;
      assert FailUpdate(t.ops, index, GenerationAfter(epoch))[index].state == 0;
    }
  }

  /** The length tests of the MAC start call and of the finish call never reject:
      a start that finds a key always goes on, and a finish that takes a result
      always returns it. */
  lemma LengthTestsNeverReject(hw: Hardware, s: Sys, e: Engine, handle: u32)
    requires GoodHardware(hw) && Reachable(hw, s)
    ensures KeyslotMaterial(s.keys, handle, KindOf(AesCmac)).Some? ==>
              |KeyslotMaterial(s.keys, handle, KindOf(AesCmac)).value| == 16
    ensures TakeResult(TableOf(s, e).ops, handle).value.Some? ==>
              TakeResult(TableOf(s, e).ops, handle).value.value.length == LengthOf(e)
  {
    ReachableInv(hw, s);
    if TakeResult(TableOf(s, e).ops, handle).value.Some? {
      TakenResultIsExact(hw, e, TableOf(s, e), handle);
    }
  }

  /** A finish returns something exactly when its buffer holds 32 bytes for a hash or 16
      for a MAC and the handle has a result; a buffer too short leaves everything as it
      is, so the result can still be taken. */
  lemma FinishReturnsIff(hw: Hardware, s: Sys, e: Engine, handle: u32, capacity: nat)
    requires GoodHardware(hw) && Reachable(hw, s)
    ensures var next := Next(hw, s, FinishCall(e, handle, capacity));
            var room := if e == HmacSm3 then 32 else 16;
            && (capacity < room ==> next == s)
            && (|next.finished| == |s.finished| + 1 <==>
                  capacity >= room && TakeResult(TableOf(s, e).ops, handle).value.Some?)
            && (|next.finished| == |s.finished| + 1 || next == s)
  {
    LengthTestsNeverReject(hw, s, e, handle);
  }

  /** When a handle of an earlier taking of a slot is accepted: by each call
      exactly when the slot is in the state that call wants and has been taken
      again a whole number of periods later. */
  lemma OldHandleAcceptedIff(hw: Hardware, s: Sys, e: Engine, index: SlotIndex, epoch: nat)
    requires GoodHardware(hw) && Reachable(hw, s)
    requires 1 <= epoch <= TableOf(s, e).history[index].epoch
    ensures var handle := EncodeHandle(index, GenerationAfter(epoch));
            var t := TableOf(s, e);
            var again := (t.history[index].epoch - epoch) % PERIOD == 0;
            && (BeginUpdate(t.ops, handle).value.Some? <==> again && t.ops[index].state == 1)
            && (TakeResult(t.ops, handle).value.Some? <==> again && t.ops[index].state == 3)
            && (DestroyOp(t.ops, handle).value <==> again && t.ops[index].state != 0)
  {
    var t := TableOf(s, e);
    SlotShowsTakings(hw, s, e, index);
    DecodeEncoded(index, GenerationAfter(epoch));
    GenerationsRepeat(epoch, t.history[index].epoch);
    AcceptedByGeneration(t.ops, EncodeHandle(index, GenerationAfter(epoch)), index, GenerationAfter(epoch));
  }

  lemma SlotShowsTakings(hw: Hardware, s: Sys, e: Engine, index: SlotIndex)
    requires GoodHardware(hw) && Reachable(hw, s)
    ensures TableOf(s, e).ops[index].generation == GenerationAfter(TableOf(s, e).history[index].epoch)
  {
    ReachableInv(hw, s);
    assert GoodOp(hw, e, TableOf(s, e).ops[index], TableOf(s, e).history[index]);
  }

  lemma AcceptedByGeneration(ops: Ops, handle: u32, index: SlotIndex, generation: u32)
    requires DecodeHandle(handle) == Some((index, generation))
    ensures BeginUpdate(ops, handle).value.Some? <==> ops[index].generation == generation && ops[index].state == 1
    ensures TakeResult(ops, handle).value.Some? <==> ops[index].generation == generation && ops[index].state == 3
    ensures DestroyOp(ops, handle).value <==> ops[index].generation == generation && ops[index].state != 0
  {
  }
}
