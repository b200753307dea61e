/** What the key, hash and MAC calls promise, without slots or generations: keys,
    ladders and operations are maps from handles, and every interleaving of the real
    calls is a run of this simpler machine that returns the same outputs. */
module CryptoDevice {
  import opened Common
  import opened CryptoHandles
  import opened CryptoTables
  import opened CryptoOps
  import opened CryptoMaps
  import opened CryptoRuns

  /** A call held between its critical sections. */
  datatype Call =
    | Waiting(engine: Engine, key: Bytes)
    | Computing(engine: Engine, handle: u32, key: Bytes, input: Bytes)
    | Returned

  datatype Output = Output(engine: Engine, handle: u32, bytes: Bytes)

  datatype Device = Device(keys: KeyMaps, hashes: OpMap, macs: OpMap, calls: seq<Call>, outputs: seq<Output>)

  function NewDevice(): Device {
    Device(KeyMaps(map[], map[]), map[], map[], [], [])
  }

  function OpsOf(d: Device, e: Engine): OpMap {
    if e.HmacSm3? then d.hashes else d.macs
  }

  function SetOps(d: Device, e: Engine, m: OpMap): Device {
    if e.HmacSm3? then d.(hashes := m) else d.(macs := m)
  }

  /** The key of a keyslot of the engine's kind. */
  function KeyFor(a: KeyMaps, e: Engine, keyslot: u32): Option<Bytes> {
    if keyslot in a.slots && a.slots[keyslot].kind == KindOf(e) then a.slots[keyslot].key else None
  }

  function EndOn(hw: Hardware, m: OpMap, c: Call, ok: bool): OpMap
    requires c.Computing?
  {
    if c.handle !in m || !m[c.handle].Running? then m
    else if ok then m[c.handle := Done(Mac(hw, c.engine, c.key, c.input))]
    else m - {c.handle}
  }

  function AllocateOn(m: OpMap, key: Bytes, created: u32): OpMap {
    if |m| < SLOT_COUNT then m[created := Started(key)] else m
  }

  function DeviceAllocate(d: Device, i: nat, created: u32): Device
    requires i < |d.calls| && d.calls[i].Waiting?
  {
    var c := d.calls[i];
    SetOps(d, c.engine, AllocateOn(OpsOf(d, c.engine), c.key, created)).(calls := d.calls[i := Returned])
  }

  function DeviceBegin(d: Device, e: Engine, handle: u32, input: Bytes): Device {
    var m := OpsOf(d, e);
    if handle !in m || !m[handle].Started? then d
    else SetOps(d, e, m[handle := Running(m[handle].key)])
         .(calls := d.calls + [Computing(e, handle, m[handle].key, input)])
  }

  function DeviceEnd(hw: Hardware, d: Device, i: nat, ok: bool): Device
    requires i < |d.calls| && d.calls[i].Computing?
  {
    var c := d.calls[i];
    SetOps(d, c.engine, EndOn(hw, OpsOf(d, c.engine), c, ok)).(calls := d.calls[i := Returned])
  }

  function DeviceFinish(d: Device, e: Engine, handle: u32, capacity: nat): Device {
    var m := OpsOf(d, e);
    if capacity < LengthOf(e) || handle !in m || !m[handle].Done? then d
    else SetOps(d, e, m - {handle}).(outputs := d.outputs + [Output(e, handle, m[handle].result)])
  }

  /** `created` is the handle a creation or an allocation hands out. */
  function DeviceNext(hw: Hardware, d: Device, step: Step, created: u32): Device {
    match step
    case ManageKeys(call) => d.(keys := MapNext(d.keys, call, created))
    case StartRead(e, keyslot) =>
      var key := KeyFor(d.keys, e, keyslot);
      if key.None? then d else d.(calls := d.calls + [Waiting(e, key.value)])
    case StartAllocate(i) => if i < |d.calls| && d.calls[i].Waiting? then DeviceAllocate(d, i, created) else d
    case UpdateBegin(e, handle, input) => DeviceBegin(d, e, handle, input)
    case UpdateEnd(i, ok) => if i < |d.calls| && d.calls[i].Computing? then DeviceEnd(hw, d, i, ok) else d
    case FinishCall(e, handle, capacity) => DeviceFinish(d, e, handle, capacity)
    case DestroyMac(handle) => d.(macs := d.macs - {handle})
    case Deinit(e) => SetOps(d, e, map[])
    case ResetAll => d.(keys := KeyMaps(map[], map[]), hashes := map[], macs := map[])
  }

  // ----- the system represents the device -----

  function ViewFlight(f: Flight): Call {
    match f
    case Starting(e, key) => Waiting(e, key)
    case Updating(e, index, epoch, key, input) => Computing(e, EncodeHandle(index, GenerationAfter(epoch)), key, input)
    case Landed => Returned
  }

  function ViewFinish(f: Finish): Output {
    Output(f.engine, f.handle, f.output)
  }

  function ViewFlights(flights: seq<Flight>): (r: seq<Call>)
    ensures |r| == |flights| && forall i :: 0 <= i < |r| ==> r[i] == ViewFlight(flights[i])
  {
    seq(|flights|, i requires 0 <= i < |flights| => ViewFlight(flights[i]))
  }

  function ViewFinishes(finished: seq<Finish>): (r: seq<Output>)
    ensures |r| == |finished| && forall i :: 0 <= i < |r| ==> r[i] == ViewFinish(finished[i])
  {
    seq(|finished|, i requires 0 <= i < |finished| => ViewFinish(finished[i]))
  }

  /** What the system stands for. */
  function DeviceOf(s: Sys): Device {
    Device(MapsOf(s.keys), OpMapOf(s.hashes.ops), OpMapOf(s.macs.ops), ViewFlights(s.flights), ViewFinishes(s.finished))
  }

  function NewHandle(s: Sys, step: Step): u32 {
    match step
    case ManageKeys(call) => FreshHandle(s.keys, call)
    case StartAllocate(i) =>
      if i >= |s.flights| || !s.flights[i].Starting? then 0
      else
        var handle := AllocateOp(TableOf(s, s.flights[i].engine).ops, s.flights[i].key).value;
        if handle.Some? then handle.value else 0
    case _ => 0
  }

  /** A handle given out names nothing live. */
  predicate HandleIsNew(d: Device, step: Step, created: u32) {
    match step
    case ManageKeys(call) =>
      && (call.CreateKeyslot? && MapAccepts(d.keys, call) ==> created !in d.keys.slots)
      && (call.CreateKlad? && MapAccepts(d.keys, call) ==> created !in d.keys.ladders)
    case StartAllocate(i) =>
      i < |d.calls| && d.calls[i].Waiting? && |OpsOf(d, d.calls[i].engine)| < SLOT_COUNT ==>
        created !in OpsOf(d, d.calls[i].engine)
    case _ => true
  }

  // ----- every step -----

  lemma TableIsClean(hw: Hardware, e: Engine, t: Table)
    requires TableInv(hw, e, t)
    ensures CleanOps(t.ops)
  {
    forall i: SlotIndex ensures CleanOp(t.ops[i]) {
      assert GoodOp(hw, e, t.ops[i], t.history[i]) && GoodHistory(t.history[i]);
    }
  }

  function Other(e: Engine): Engine {
    if e.HmacSm3? then AesCmac else HmacSm3
  }

  /** A step that only concerns one engine. */
  lemma OneEngineMoves(s: Sys, e: Engine, s': Sys, d': Device)
    requires s'.keys == s.keys && d'.keys == DeviceOf(s).keys
    requires TableOf(s', Other(e)) == TableOf(s, Other(e)) && OpsOf(d', Other(e)) == OpsOf(DeviceOf(s), Other(e))
    requires OpsOf(d', e) == OpMapOf(TableOf(s', e).ops)
    requires d'.calls == ViewFlights(s'.flights) && d'.outputs == ViewFinishes(s'.finished)
    ensures d' == DeviceOf(s')
  {
  }

  lemma CallAdded(flights: seq<Flight>, f: Flight)
    ensures ViewFlights(flights + [f]) == ViewFlights(flights) + [ViewFlight(f)]
  {
  }

  lemma CallReturned(flights: seq<Flight>, i: nat)
    requires i < |flights|
    ensures ViewFlights(flights[i := Landed]) == ViewFlights(flights)[i := Returned]
  {
  }

  lemma OutputAdded(finished: seq<Finish>, f: Finish)
    ensures ViewFinishes(finished + [f]) == ViewFinishes(finished) + [ViewFinish(f)]
  {
  }

  // What a step does to the keys, or to its engine's table.

  lemma KeysMove(k: Keys, call: KeyCall)
    requires KeysInv(k)
    ensures MapsOf(KeyStep(k, call)) == MapNext(MapsOf(k), call, FreshHandle(k, call))
    ensures MapAccepts(MapsOf(k), call) && call.CreateKeyslot? ==> FreshHandle(k, call) !in MapsOf(k).slots
    ensures MapAccepts(MapsOf(k), call) && call.CreateKlad? ==> FreshHandle(k, call) !in MapsOf(k).ladders
  {
    MapsOfRepresent(k);
    CallFollows(k, MapsOf(k), call);
    KeyStepKeepsInv(k, call);
    RepresentsOne(KeyStep(k, call), MapNext(MapsOf(k), call, FreshHandle(k, call)));
  }

  lemma ReadAgrees(k: Keys, e: Engine, keyslot: u32)
    requires KeysInv(k)
    ensures KeyslotMaterial(k, keyslot, KindOf(e)) == KeyFor(MapsOf(k), e, keyslot)
    ensures KeyFor(MapsOf(k), e, keyslot).Some? && e.AesCmac? ==> |KeyFor(MapsOf(k), e, keyslot).value| == 16
  {
    MapsOfRepresent(k);
    if LiveKeyslot(k, keyslot) {
      assert GoodKeyslot(k.keyslots[Index(keyslot)]);
    }
  }

  lemma AllocateOps(ops: Ops, key: ShortKey, created: u32)
    requires CleanOps(ops)
    requires AllocateOp(ops, key).value.Some? ==> created == AllocateOp(ops, key).value.value
    ensures var handle, m := AllocateOp(ops, key).value, OpMapOf(ops);
            && (handle.Some? <==> |m| < SLOT_COUNT)
            && (handle.Some? ==> handle.value !in m)
            && OpMapOf(AllocateOp(ops, key).ops) == AllocateOn(m, key, created)
  {
    OpMapOfMatches(ops);
    AllocateFollows(ops, OpMapOf(ops), key);
    var r := AllocateOp(ops, key);
    if r.value.Some? {
      OpsMatchOne(r.ops, OpMapOf(ops)[r.value.value := Started(key)]);
    }
  }

  lemma BeginOps(ops: Ops, handle: u32)
    requires CleanOps(ops)
    ensures var r, m := BeginUpdate(ops, handle), OpMapOf(ops);
            && (r.value.Some? <==> handle in m && m[handle].Started?)
            && (r.value.Some? ==>
                  && r.value.value.key == m[handle].key
                  && EncodeHandle(r.value.value.index, r.value.value.generation) == handle
                  && OpMapOf(r.ops) == m[handle := Running(m[handle].key)])
  {
    OpMapOfMatches(ops);
    var m, r := OpMapOf(ops), BeginUpdate(ops, handle);
    BeginFollows(ops, m, handle);
    if r.value.Some? {
      OpsMatchOne(r.ops, m[handle := Running(m[handle].key)]);
    }
  }

  lemma EndOps(hw: Hardware, ops: Ops, e: Engine, index: SlotIndex, generation: u32, key: Bytes, input: Bytes)
    requires CleanOps(ops) && GoodHardware(hw) && 1 <= generation < GENERATIONS
    ensures var c, m := Computing(e, EncodeHandle(index, generation), key, input), OpMapOf(ops);
            && OpMapOf(CompleteUpdate(ops, index, generation, Mac(hw, e, key, input)).ops) == EndOn(hw, m, c, true)
            && OpMapOf(FailUpdate(ops, index, generation)) == EndOn(hw, m, c, false)
  {
    OpMapOfMatches(ops);
    var c, m := Computing(e, EncodeHandle(index, generation), key, input), OpMapOf(ops);
    var result := Mac(hw, e, key, input);
    assert |result| == LengthOf(e);
    CompleteFollows(ops, m, index, generation, result);
    FailFollows(ops, m, index, generation);
    OpsMatchOne(CompleteUpdate(ops, index, generation, result).ops, EndOn(hw, m, c, true));
    OpsMatchOne(FailUpdate(ops, index, generation), EndOn(hw, m, c, false));
  }

  lemma TakeOps(hw: Hardware, e: Engine, t: Table, handle: u32)
    requires TableInv(hw, e, t)
    ensures var taken, m := TakeResult(t.ops, handle).value, OpMapOf(t.ops);
            && (taken.Some? <==> handle in m && m[handle].Done?)
            && (taken.Some? ==>
                  && taken.value.length == LengthOf(e)
                  && taken.value.bytes[..taken.value.length] == m[handle].result
                  && OpMapOf(TakeResult(t.ops, handle).ops) == m - {handle})
  {
    TableIsClean(hw, e, t);
    OpMapOfMatches(t.ops);
    var m := OpMapOf(t.ops);
    TakeFollows(t.ops, m, handle);
    if TakeResult(t.ops, handle).value.Some? {
      TakenResultIsExact(hw, e, t, handle);
      OpsMatchOne(TakeResult(t.ops, handle).ops, m - {handle});
    }
  }

  lemma ClearOps(ops: Ops, handle: u32)
    requires CleanOps(ops)
    ensures OpMapOf(ClearAll(ops)) == map[]
    ensures OpMapOf(DestroyOp(ops, handle).ops) == OpMapOf(ops) - {handle}
  {
    OpMapOfMatches(ops);
    DestroyFollows(ops, OpMapOf(ops), handle);
    OpsMatchOne(DestroyOp(ops, handle).ops, OpMapOf(ops) - {handle});
  }

  // ... and to the whole.

  /** A step of the system is a step of the device, and a handle it gives out names
      nothing live. */
  ghost predicate Commutes(hw: Hardware, s: Sys, step: Step) {
    && DeviceOf(Next(hw, s, step)) == DeviceNext(hw, DeviceOf(s), step, NewHandle(s, step))
    && HandleIsNew(DeviceOf(s), step, NewHandle(s, step))
  }

  lemma ManageKeysCommutes(hw: Hardware, s: Sys, call: KeyCall)
    requires KeysInv(s.keys)
    ensures Commutes(hw, s, ManageKeys(call))
  {
    KeysMove(s.keys, call);
  }

  lemma StartReadCommutes(hw: Hardware, s: Sys, e: Engine, keyslot: u32)
    requires KeysInv(s.keys)
    ensures Commutes(hw, s, StartRead(e, keyslot))
  {
    var key := KeyslotMaterial(s.keys, keyslot, KindOf(e));
    ReadAgrees(s.keys, e, keyslot);
    if key.Some? {
      CallAdded(s.flights, Starting(e, key.value));
      OneEngineMoves(s, e, Next(hw, s, StartRead(e, keyslot)), DeviceNext(hw, DeviceOf(s), StartRead(e, keyslot), 0));
    }
  }

  function Allocated(s: Sys, i: nat): (handle: Option<u32>)
    requires i < |s.flights| && s.flights[i].Starting?
  {
    AllocateOp(TableOf(s, s.flights[i].engine).ops, s.flights[i].key).value
  }

  lemma AllocateMoves(s: Sys, d: Device, i: nat, created: u32)
    requires i < |s.flights| && s.flights[i].Starting? && CleanOps(TableOf(s, s.flights[i].engine).ops)
    requires d == DeviceOf(s) && (Allocated(s, i).Some? ==> created == Allocated(s, i).value)
    ensures DeviceOf(StartAllocateStep(s, i)) == DeviceAllocate(d, i, created)
  {
    AllocateMovesOps(s, d, i, created);
    AllocateShape(s, i);
    DeviceAllocateShape(d, i, created);
    CallReturned(s.flights, i);
    OneEngineMoves(s, s.flights[i].engine, StartAllocateStep(s, i), DeviceAllocate(d, i, created));
  }

  lemma AllocateShape(s: Sys, i: nat)
    requires i < |s.flights| && s.flights[i].Starting?
    ensures var e, s' := s.flights[i].engine, StartAllocateStep(s, i);
            && s'.keys == s.keys && s'.finished == s.finished && s'.flights == s.flights[i := Landed]
            && TableOf(s', Other(e)) == TableOf(s, Other(e))
  {
  }

  lemma DeviceAllocateShape(d: Device, i: nat, created: u32)
    requires i < |d.calls| && d.calls[i].Waiting?
    ensures var e, d' := d.calls[i].engine, DeviceAllocate(d, i, created);
            && d'.keys == d.keys && d'.outputs == d.outputs && d'.calls == d.calls[i := Returned]
            && OpsOf(d', Other(e)) == OpsOf(d, Other(e))
  {
  }

  lemma AllocateMovesOps(s: Sys, d: Device, i: nat, created: u32)
    requires i < |s.flights| && s.flights[i].Starting? && CleanOps(TableOf(s, s.flights[i].engine).ops)
    requires d == DeviceOf(s) && (Allocated(s, i).Some? ==> created == Allocated(s, i).value)
    ensures var e := s.flights[i].engine;
            OpsOf(DeviceAllocate(d, i, created), e) == OpMapOf(TableOf(StartAllocateStep(s, i), e).ops)
  {
    var f := s.flights[i];
    var t := TableOf(s, f.engine);
    AllocateOps(t.ops, f.key, created);
    assert AllocateIn(t, f.key).ops == AllocateOp(t.ops, f.key).ops;
  }

  lemma BeginMoves(hw: Hardware, s: Sys, d: Device, e: Engine, handle: u32, input: Bytes)
    requires TableInv(hw, e, TableOf(s, e)) && d == DeviceOf(s)
    ensures DeviceOf(UpdateBeginStep(s, e, handle, input)) == DeviceBegin(d, e, handle, input)
  {
    var t := TableOf(s, e);
    TableIsClean(hw, e, t);
    BeginOps(t.ops, handle);
    var begun := BeginUpdate(t.ops, handle).value;
    if begun.Some? {
      var b := begun.value;
      BeginReturns(hw, e, t, handle, input);
      CallAdded(s.flights, Updating(e, b.index, t.history[b.index].epoch, b.key, input));
      OneEngineMoves(s, e, UpdateBeginStep(s, e, handle, input), DeviceBegin(d, e, handle, input));
    }
  }

  lemma EndMoves(hw: Hardware, s: Sys, d: Device, i: nat, ok: bool)
    requires GoodHardware(hw) && i < |s.flights| && s.flights[i].Updating? && d == DeviceOf(s)
    requires CleanOps(TableOf(s, s.flights[i].engine).ops) && s.flights[i].epoch >= 1
    ensures DeviceOf(UpdateEndStep(hw, s, i, ok)) == DeviceEnd(hw, d, i, ok)
  {
    var f := s.flights[i];
    EndOps(hw, TableOf(s, f.engine).ops, f.engine, f.index, GenerationAfter(f.epoch), f.key, f.input);
    CallReturned(s.flights, i);
    OneEngineMoves(s, f.engine, UpdateEndStep(hw, s, i, ok), DeviceEnd(hw, d, i, ok));
  }

  lemma FinishMoves(hw: Hardware, s: Sys, d: Device, e: Engine, handle: u32, capacity: nat)
    requires TableInv(hw, e, TableOf(s, e)) && d == DeviceOf(s)
    ensures DeviceOf(FinishStep(s, e, handle, capacity)) == DeviceFinish(d, e, handle, capacity)
  {
    var t := TableOf(s, e);
    TakeOps(hw, e, t, handle);
    var taken := TakeResult(t.ops, handle).value;
    if capacity >= LengthOf(e) && taken.Some? {
      OutputAdded(s.finished, Finish(e, handle, Index(handle), t.history[Index(handle)].epoch,
                                     taken.value.bytes[..taken.value.length]));
      OneEngineMoves(s, e, FinishStep(s, e, handle, capacity), DeviceFinish(d, e, handle, capacity));
    }
  }

  lemma ClearCommutes(hw: Hardware, s: Sys, step: Step)
    requires CleanOps(s.hashes.ops) && CleanOps(s.macs.ops) && (step.DestroyMac? || step.Deinit?)
    ensures Commutes(hw, s, step)
  {
    var e := if step.Deinit? then step.engine else AesCmac;
    ClearOps(TableOf(s, e).ops, if step.Deinit? then 0 else step.handle);
    OneEngineMoves(s, e, Next(hw, s, step), DeviceNext(hw, DeviceOf(s), step, 0));
  }

  lemma ResetCommutes(hw: Hardware, s: Sys)
    requires KeysInv(s.keys) && CleanOps(s.hashes.ops) && CleanOps(s.macs.ops)
    ensures Commutes(hw, s, ResetAll)
  {
    ClearOps(s.hashes.ops, 0);
    ClearOps(s.macs.ops, 0);
    KeysMove(s.keys, ResetKeys);
  }

  lemma FlightEpochIsPositive(hw: Hardware, s: Sys, f: Flight)
    requires TablesInv(hw, s) && f.Updating? && GoodFlight(s, f)
    ensures f.epoch >= 1
  {
    assert GoodHistory(TableOf(s, f.engine).history[f.index]);
  }

  lemma StartAllocateCommutes(hw: Hardware, s: Sys, i: nat)
    requires i < |s.flights| && s.flights[i].Starting? && CleanOps(TableOf(s, s.flights[i].engine).ops)
    ensures Commutes(hw, s, StartAllocate(i))
  {
    AllocateMoves(s, DeviceOf(s), i, NewHandle(s, StartAllocate(i)));
    AllocateOps(TableOf(s, s.flights[i].engine).ops, s.flights[i].key, NewHandle(s, StartAllocate(i)));
  }

  lemma UpdateBeginCommutes(hw: Hardware, s: Sys, e: Engine, handle: u32, input: Bytes)
    requires TableInv(hw, e, TableOf(s, e))
    ensures Commutes(hw, s, UpdateBegin(e, handle, input))
  {
    BeginMoves(hw, s, DeviceOf(s), e, handle, input);
  }

  lemma UpdateEndCommutes(hw: Hardware, s: Sys, i: nat, ok: bool)
    requires GoodHardware(hw) && i < |s.flights| && s.flights[i].Updating?
    requires CleanOps(TableOf(s, s.flights[i].engine).ops) && s.flights[i].epoch >= 1
    ensures Commutes(hw, s, UpdateEnd(i, ok))
  {
    var d := DeviceOf(s);
    assert d.calls[i] == ViewFlight(s.flights[i]);
    assert DeviceNext(hw, d, UpdateEnd(i, ok), 0) == DeviceEnd(hw, d, i, ok);
    EndMoves(hw, s, d, i, ok);
  }

  /** A step of a call that is not there, or not at that point, does nothing. */
  lemma IdleCommutes(hw: Hardware, s: Sys, step: Step)
    requires (step.StartAllocate? && !(step.flight < |s.flights| && s.flights[step.flight].Starting?))
          || (step.UpdateEnd? && !(step.flight < |s.flights| && s.flights[step.flight].Updating?))
    ensures Commutes(hw, s, step)
  {
    var d := DeviceOf(s);
    if step.flight < |s.flights| {
      assert d.calls[step.flight] == ViewFlight(s.flights[step.flight]);
    }
    assert DeviceNext(hw, d, step, 0) == d;
  }

  lemma FinishCommutes(hw: Hardware, s: Sys, e: Engine, handle: u32, capacity: nat)
    requires TableInv(hw, e, TableOf(s, e))
    ensures Commutes(hw, s, FinishCall(e, handle, capacity))
  {
    FinishMoves(hw, s, DeviceOf(s), e, handle, capacity);
  }

  lemma UpdateCommutes(hw: Hardware, s: Sys, step: Step)
    requires Inv(hw, s) && GoodHardware(hw) && (step.UpdateBegin? || step.UpdateEnd? || step.FinishCall?)
    ensures Commutes(hw, s, step)
  {
    match step
    case UpdateBegin(e, handle, input) => UpdateBeginCommutes(hw, s, e, handle, input);
    case UpdateEnd(i, ok) =>
      if i < |s.flights| && s.flights[i].Updating? {
        FlightEpochIsPositive(hw, s, s.flights[i]);
        TableIsClean(hw, s.flights[i].engine, TableOf(s, s.flights[i].engine));
        UpdateEndCommutes(hw, s, i, ok);
      } else {
        IdleCommutes(hw, s, step);
      }
    case FinishCall(e, handle, capacity) => FinishCommutes(hw, s, e, handle, capacity);
  }

  /** Every step of the system, from any state it can be in, is the step of the device
      with the same name. */
  lemma StepCommutes(hw: Hardware, s: Sys, step: Step)
    requires Inv(hw, s) && GoodHardware(hw)
    ensures Commutes(hw, s, step)
  {
    TableIsClean(hw, HmacSm3, s.hashes);
    TableIsClean(hw, AesCmac, s.macs);
    match step
    case ManageKeys(call) => ManageKeysCommutes(hw, s, call);
    case StartRead(e, keyslot) => StartReadCommutes(hw, s, e, keyslot);
    case StartAllocate(i) =>
      if i < |s.flights| && s.flights[i].Starting? {
        StartAllocateCommutes(hw, s, i);
      } else {
        IdleCommutes(hw, s, step);
      }
    case ResetAll => ResetCommutes(hw, s);
    case DestroyMac(_) => ClearCommutes(hw, s, step);
    case Deinit(_) => ClearCommutes(hw, s, step);
    case _ => UpdateCommutes(hw, s, step);
  }

  // ----- whole runs -----

  function DeviceRun(hw: Hardware, d: Device, trace: seq<Step>, handles: seq<u32>): Device
    requires |handles| == |trace|
    decreases |trace|
  {
    if trace == [] then d else DeviceRun(hw, DeviceNext(hw, d, trace[0], handles[0]), trace[1..], handles[1..])
  }

  predicate HandlesAreNew(hw: Hardware, d: Device, trace: seq<Step>, handles: seq<u32>)
    requires |handles| == |trace|
    decreases |trace|
  {
    trace == [] || (HandleIsNew(d, trace[0], handles[0])
                    && HandlesAreNew(hw, DeviceNext(hw, d, trace[0], handles[0]), trace[1..], handles[1..]))
  }

  /** The handles a run of the system gives out. */
  function HandlesGiven(hw: Hardware, s: Sys, trace: seq<Step>): (handles: seq<u32>)
    ensures |handles| == |trace|
    decreases |trace|
  {
    if trace == [] then [] else [NewHandle(s, trace[0])] + HandlesGiven(hw, Next(hw, s, trace[0]), trace[1..])
  }

  lemma {:induction false} RunCommutes(hw: Hardware, s: Sys, trace: seq<Step>)
    requires Inv(hw, s) && GoodHardware(hw)
    ensures DeviceOf(Run(hw, s, trace)) == DeviceRun(hw, DeviceOf(s), trace, HandlesGiven(hw, s, trace))
    ensures HandlesAreNew(hw, DeviceOf(s), trace, HandlesGiven(hw, s, trace))
    decreases |trace|
  {
    if trace == [] {
    } else {
      var next := Next(hw, s, trace[0]);
      StepCommutes(hw, s, trace[0]);
      StepKeepsTables(hw, s, trace[0]);
      StepKeepsLog(hw, s, trace[0]);
      RunCommutes(hw, next, trace[1..]);
      assert HandlesGiven(hw, s, trace)[1..] == HandlesGiven(hw, next, trace[1..]);
    }
  }

  /** Every interleaving of the real calls is a run of the device: same keys, same
      operations, same calls in progress and same outputs, with handles that are new
      when they are given out. */
  lemma SystemRefinesDevice(hw: Hardware, trace: seq<Step>)
    requires GoodHardware(hw)
    ensures var handles := HandlesGiven(hw, Init(), trace);
            && DeviceOf(Run(hw, Init(), trace)) == DeviceRun(hw, NewDevice(), trace, handles)
            && HandlesAreNew(hw, NewDevice(), trace, handles)
  {
    InitInv(hw);
    RunCommutes(hw, Init(), trace);
    assert DeviceOf(Init()) == NewDevice();
  }

  // ----- what the end of an update means -----

  /** Where the end of an update lands, success leaves the MAC of the key and input the
      update began with, for the slot's handle to take; failure leaves the slot free
      with no byte of key or result, and no call accepts the handle. */
  lemma EndGivesResult(hw: Hardware, s: Sys, i: nat, ok: bool)
    requires GoodHardware(hw) && Reachable(hw, s)
    requires i < |s.flights| && s.flights[i].Updating?
    requires var f := s.flights[i];
             var t := TableOf(s, f.engine);
             t.ops[f.index].state == 2 && (t.history[f.index].epoch - f.epoch) % PERIOD == 0
    ensures var f := s.flights[i];
            var ops, ops' := TableOf(s, f.engine).ops, TableOf(Next(hw, s, UpdateEnd(i, ok)), f.engine).ops;
            var handle := EncodeHandle(f.index, ops[f.index].generation);
            if ok then TakeResult(ops', handle).value
                    == Some(Result(Pad(Mac(hw, f.engine, f.key, f.input), RESULT_BYTES), LengthOf(f.engine)))
            else
              && FreedOnly(ops, ops', f.index)
              && BeginUpdate(ops', handle).value.None? && TakeResult(ops', handle).value.None? && !DestroyOp(ops', handle).value
  {
    EndFinds(hw, s, i);
    var f := s.flights[i];
    var t := TableOf(s, f.engine);
    LandedEnd(t.ops, f.index, t.ops[f.index].generation, Mac(hw, f.engine, f.key, f.input));
    EndShape(hw, s, i, ok);
  }

  lemma EndFinds(hw: Hardware, s: Sys, i: nat)
    requires GoodHardware(hw) && Reachable(hw, s) && i < |s.flights| && s.flights[i].Updating?
    requires var f := s.flights[i];
             var t := TableOf(s, f.engine);
             t.ops[f.index].state == 2 && (t.history[f.index].epoch - f.epoch) % PERIOD == 0
    ensures var f := s.flights[i];
            var op := TableOf(s, f.engine).ops[f.index];
            && op.generation == GenerationAfter(f.epoch) && op.generation >= 1 && op.result == Zeros(RESULT_BYTES)
            && |Mac(hw, f.engine, f.key, f.input)| == LengthOf(f.engine)
  {
    ReachableInv(hw, s);
    var f := s.flights[i];
    var t := TableOf(s, f.engine);
    assert GoodFlight(s, f);
    assert GoodOp(hw, f.engine, t.ops[f.index], t.history[f.index]) && GoodHistory(t.history[f.index]);
    GenerationsRepeat(f.epoch, t.history[f.index].epoch);
  }

  lemma EndShape(hw: Hardware, s: Sys, i: nat, ok: bool)
    requires i < |s.flights| && s.flights[i].Updating?
    ensures var f := s.flights[i];
            var ops, ops' := TableOf(s, f.engine).ops, TableOf(Next(hw, s, UpdateEnd(i, ok)), f.engine).ops;
            ops' == (if ok then CompleteUpdate(ops, f.index, GenerationAfter(f.epoch), Mac(hw, f.engine, f.key, f.input)).ops
                     else FailUpdate(ops, f.index, GenerationAfter(f.epoch)))
  {
  }

  lemma LandedEnd(ops: Ops, index: SlotIndex, generation: u32, result: Bytes)
    requires ops[index].state == 2 && ops[index].generation == generation && ops[index].result == Zeros(RESULT_BYTES)
    requires 1 <= generation < GENERATIONS && |result| <= RESULT_BYTES
    ensures var handle := EncodeHandle(index, generation);
            var done, failed := CompleteUpdate(ops, index, generation, result).ops, FailUpdate(ops, index, generation);
            && TakeResult(done, handle).value == Some(Result(Pad(result, RESULT_BYTES), |result|))
            && FreedOnly(ops, failed, index)
            && BeginUpdate(failed, handle).value.None? && TakeResult(failed, handle).value.None? && !DestroyOp(failed, handle).value
  {
    DecodeEncoded(index, generation);
    assert result + Zeros(RESULT_BYTES)[|result|..] == Pad(result, RESULT_BYTES);
  }

  // ----- one operation from start to finish -----

  function Undisturbed(e: Engine, keyslot: u32, n: nat, handle: u32, input: Bytes, ok: bool, capacity: nat): seq<Step> {
    [StartRead(e, keyslot), StartAllocate(n), UpdateBegin(e, handle, input), UpdateEnd(n + 1, ok),
     FinishCall(e, handle, capacity)]
  }

  lemma StartOnDevice(hw: Hardware, d: Device, e: Engine, keyslot: u32, handle: u32, key: Bytes)
    requires KeyFor(d.keys, e, keyslot) == Some(key) && |OpsOf(d, e)| < SLOT_COUNT
    ensures DeviceNext(hw, DeviceNext(hw, d, StartRead(e, keyslot), 0), StartAllocate(|d.calls|), handle)
         == AfterStart(d, e, handle, key)
  {
    var d1 := DeviceNext(hw, d, StartRead(e, keyslot), 0);
    assert d1.calls[|d.calls|] == Waiting(e, key) && OpsOf(d1, e) == OpsOf(d, e);
    assert d1.calls[|d.calls| := Returned] == d.calls + [Returned];
  }

  lemma OverwriteOnce(m: OpMap, handle: u32, first: OpView, second: OpView)
    ensures var once: OpMap := m[handle := first];
            once[handle := second] == m[handle := second] && once - {handle} == m - {handle}
  {
  }

  lemma UpdateOnDevice(hw: Hardware, d: Device, e: Engine, handle: u32, key: Bytes, input: Bytes, ok: bool)
    requires handle in OpsOf(d, e) && OpsOf(d, e)[handle] == Started(key)
    ensures var m := OpsOf(d, e);
            DeviceNext(hw, DeviceNext(hw, d, UpdateBegin(e, handle, input), 0), UpdateEnd(|d.calls|, ok), 0)
            == SetOps(d, e, if ok then m[handle := Done(Mac(hw, e, key, input))] else m - {handle}).(calls := d.calls + [Returned])
  {
    var m, d1 := OpsOf(d, e), DeviceNext(hw, d, UpdateBegin(e, handle, input), 0);
    assert d1.calls[|d.calls|] == Computing(e, handle, key, input) && OpsOf(d1, e) == m[handle := Running(key)];
    assert d1.calls[|d.calls| := Returned] == d.calls + [Returned];
    OverwriteOnce(m, handle, Running(key), Done(Mac(hw, e, key, input)));
  }

  lemma FinishOnDevice(hw: Hardware, d: Device, e: Engine, handle: u32, capacity: nat)
    requires capacity >= LengthOf(e)
    requires handle in OpsOf(d, e) ==> OpsOf(d, e)[handle].Done?
    ensures var m := OpsOf(d, e);
            DeviceNext(hw, d, FinishCall(e, handle, capacity), 0)
            == (if handle in m then SetOps(d, e, m - {handle}).(outputs := d.outputs + [Output(e, handle, m[handle].result)]) else d)
  {
  }

  lemma FiveSteps(hw: Hardware, d: Device, trace: seq<Step>, handle: u32)
    requires |trace| == 5
    ensures DeviceRun(hw, d, trace, [0, handle, 0, 0, 0])
         == var d2 := DeviceNext(hw, DeviceNext(hw, d, trace[0], 0), trace[1], handle);
            var d4 := DeviceNext(hw, DeviceNext(hw, d2, trace[2], 0), trace[3], 0);
            DeviceNext(hw, d4, trace[4], 0)
  {
    var d1 := DeviceNext(hw, d, trace[0], 0);
    var d2 := DeviceNext(hw, d1, trace[1], handle);
    var d3 := DeviceNext(hw, d2, trace[2], 0);
    var d4 := DeviceNext(hw, d3, trace[3], 0);
    assert DeviceRun(hw, d, trace, [0, handle, 0, 0, 0]) == DeviceRun(hw, d1, trace[1..], [handle, 0, 0, 0]);
    assert DeviceRun(hw, d1, trace[1..], [handle, 0, 0, 0]) == DeviceRun(hw, d2, trace[1..][1..], [0, 0, 0]);
    assert trace[1..][1..] == trace[2..];
    assert DeviceRun(hw, d2, trace[2..], [0, 0, 0]) == DeviceRun(hw, d3, trace[2..][1..], [0, 0]);
    assert trace[2..][1..] == trace[3..];
    assert DeviceRun(hw, d3, trace[3..], [0, 0]) == DeviceRun(hw, d4, trace[3..][1..], [0]);
    assert trace[3..][1..] == [trace[4]];
    assert DeviceRun(hw, d4, [trace[4]], [0]) == DeviceNext(hw, d4, trace[4], 0);
  }

  lemma UndisturbedOnDevice(hw: Hardware, d: Device, e: Engine, keyslot: u32, handle: u32, input: Bytes, ok: bool, capacity: nat)
    requires KeyFor(d.keys, e, keyslot).Some? && |OpsOf(d, e)| < SLOT_COUNT && handle !in OpsOf(d, e)
    requires capacity >= LengthOf(e)
    ensures var n, key := |d.calls|, KeyFor(d.keys, e, keyslot).value;
            DeviceRun(hw, d, Undisturbed(e, keyslot, n, handle, input, ok, capacity), [0, handle, 0, 0, 0])
            == d.(calls := d.calls + [Returned, Returned],
                  outputs := if ok then d.outputs + [Output(e, handle, Mac(hw, e, key, input))] else d.outputs)
  {
    var n, key := |d.calls|, KeyFor(d.keys, e, keyslot).value;
    FiveSteps(hw, d, Undisturbed(e, keyslot, n, handle, input, ok, capacity), handle);
    StartOnDevice(hw, d, e, keyslot, handle, key);
    StartedThenUpdated(hw, d, e, handle, key, input, ok);
    UpdatedThenFinished(hw, d, e, handle, Mac(hw, e, key, input), ok, capacity);
  }

  function AfterStart(d: Device, e: Engine, handle: u32, key: Bytes): Device {
    SetOps(d, e, OpsOf(d, e)[handle := Started(key)]).(calls := d.calls + [Returned])
  }

  function AfterUpdate(d: Device, e: Engine, handle: u32, result: Bytes, ok: bool): Device {
    SetOps(d, e, if ok then OpsOf(d, e)[handle := Done(result)] else OpsOf(d, e)).(calls := d.calls + [Returned, Returned])
  }

  lemma StartedThenUpdated(hw: Hardware, d: Device, e: Engine, handle: u32, key: Bytes, input: Bytes, ok: bool)
    requires handle !in OpsOf(d, e)
    ensures var d2 := AfterStart(d, e, handle, key);
            DeviceNext(hw, DeviceNext(hw, d2, UpdateBegin(e, handle, input), 0), UpdateEnd(|d.calls| + 1, ok), 0)
            == AfterUpdate(d, e, handle, Mac(hw, e, key, input), ok)
  {
    var m := OpsOf(d, e);
    UpdateOnDevice(hw, AfterStart(d, e, handle, key), e, handle, key, input, ok);
    OverwriteOnce(m, handle, Started(key), Done(Mac(hw, e, key, input)));
    assert m - {handle} == m;
    assert d.calls + [Returned] + [Returned] == d.calls + [Returned, Returned];
  }

  lemma UpdatedThenFinished(hw: Hardware, d: Device, e: Engine, handle: u32, result: Bytes, ok: bool, capacity: nat)
    requires handle !in OpsOf(d, e) && capacity >= LengthOf(e)
    ensures DeviceNext(hw, AfterUpdate(d, e, handle, result, ok), FinishCall(e, handle, capacity), 0)
         == d.(calls := d.calls + [Returned, Returned],
               outputs := if ok then d.outputs + [Output(e, handle, result)] else d.outputs)
  {
    var m, d4 := OpsOf(d, e), AfterUpdate(d, e, handle, result, ok);
    FinishOnDevice(hw, d4, e, handle, capacity);
    assert ok ==> OpsOf(d4, e) - {handle} == m;
  }

  /** From any state a run can reach, a start on a keyslot holding a key while an
      operation is free, one update and a finish with room enough, with nothing in
      between, returns exactly the MAC of that key and that input when the hardware step
      succeeds and nothing when it fails; either way keys and operations are afterwards
      what they were. */
  lemma UndisturbedReturnsMac(hw: Hardware, s: Sys, e: Engine, keyslot: u32, input: Bytes, ok: bool, capacity: nat)
    requires GoodHardware(hw) && Reachable(hw, s) && capacity >= LengthOf(e)
    requires KeyslotMaterial(s.keys, keyslot, KindOf(e)).Some? && FreeOp(TableOf(s, e).ops).Some?
    ensures var key := KeyslotMaterial(s.keys, keyslot, KindOf(e)).value;
            var handle := AllocateOp(TableOf(s, e).ops, key).value.value;
            var later := Run(hw, s, Undisturbed(e, keyslot, |s.flights|, handle, input, ok, capacity));
            var d := DeviceOf(s);
            DeviceOf(later) == d.(calls := d.calls + [Returned, Returned],
                                  outputs := if ok then d.outputs + [Output(e, handle, Mac(hw, e, key, input))] else d.outputs)
  {
    ReachableInv(hw, s);
    var key := KeyslotMaterial(s.keys, keyslot, KindOf(e)).value;
    var handle := AllocateOp(TableOf(s, e).ops, key).value.value;
    var d, trace := DeviceOf(s), Undisturbed(e, keyslot, |s.flights|, handle, input, ok, capacity);
    ReadyOnDevice(hw, s, e, keyslot);
    HandlesOfUndisturbed(hw, s, e, keyslot, input, ok, capacity);
    UndisturbedOnDevice(hw, d, e, keyslot, handle, input, ok, capacity);
    RunIs(hw, s, trace, [0, handle, 0, 0, 0], DeviceRun(hw, d, trace, [0, handle, 0, 0, 0]));
  }

  lemma RunIs(hw: Hardware, s: Sys, trace: seq<Step>, handles: seq<u32>, d: Device)
    requires Inv(hw, s) && GoodHardware(hw) && handles == HandlesGiven(hw, s, trace)
    requires d == DeviceRun(hw, DeviceOf(s), trace, handles)
    ensures DeviceOf(Run(hw, s, trace)) == d
  {
    RunCommutes(hw, s, trace);
  }

  lemma ReadyOnDevice(hw: Hardware, s: Sys, e: Engine, keyslot: u32)
    requires KeysInv(s.keys) && TableInv(hw, e, TableOf(s, e))
    requires KeyslotMaterial(s.keys, keyslot, KindOf(e)).Some? && FreeOp(TableOf(s, e).ops).Some?
    ensures var d, key := DeviceOf(s), KeyslotMaterial(s.keys, keyslot, KindOf(e)).value;
            && KeyFor(d.keys, e, keyslot) == Some(key) && |OpsOf(d, e)| < SLOT_COUNT
            && AllocateOp(TableOf(s, e).ops, key).value.value !in OpsOf(d, e)
  {
    var key := KeyslotMaterial(s.keys, keyslot, KindOf(e)).value;
    TableIsClean(hw, e, TableOf(s, e));
    ReadAgrees(s.keys, e, keyslot);
    AllocateOps(TableOf(s, e).ops, key, AllocateOp(TableOf(s, e).ops, key).value.value);
  }

  lemma HandlesOfUndisturbed(hw: Hardware, s: Sys, e: Engine, keyslot: u32, input: Bytes, ok: bool, capacity: nat)
    requires KeysInv(s.keys) && KeyslotMaterial(s.keys, keyslot, KindOf(e)).Some? && FreeOp(TableOf(s, e).ops).Some?
    ensures var key := KeyslotMaterial(s.keys, keyslot, KindOf(e)).value;
            var handle := AllocateOp(TableOf(s, e).ops, key).value.value;
            HandlesGiven(hw, s, Undisturbed(e, keyslot, |s.flights|, handle, input, ok, capacity)) == [0, handle, 0, 0, 0]
  {
    var key := KeyslotMaterial(s.keys, keyslot, KindOf(e)).value;
    var handle := AllocateOp(TableOf(s, e).ops, key).value.value;
    var trace := Undisturbed(e, keyslot, |s.flights|, handle, input, ok, capacity);
    ReadAgrees(s.keys, e, keyslot);
    var s1 := Next(hw, s, trace[0]);
    assert s1.flights[|s.flights|] == Starting(e, key) && TableOf(s1, e) == TableOf(s, e);
    var s2 := Next(hw, s1, trace[1]);
    assert trace[1..][1..] == trace[2..];
    OnlyAllocationsGive(hw, s2, trace[2..]);
    assert HandlesGiven(hw, s, trace) == [0] + ([handle] + HandlesGiven(hw, s2, trace[2..]));
  }

  lemma {:induction false} OnlyAllocationsGive(hw: Hardware, s: Sys, trace: seq<Step>)
    requires forall i :: 0 <= i < |trace| ==> !trace[i].ManageKeys? && !trace[i].StartAllocate?
    ensures forall i :: 0 <= i < |trace| ==> HandlesGiven(hw, s, trace)[i] == 0
    decreases |trace|
  {
    if trace == [] {
    } else {
      OnlyAllocationsGive(hw, Next(hw, s, trace[0]), trace[1..]);
    }
  }
}
