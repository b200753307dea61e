/** Hash and MAC operations.  The hardware runs between two critical sections,
    so any other call can come between the start and the end of an update. */
module CryptoOps {
  import opened Common
  import opened CryptoHandles
  import opened CryptoTables

  const IDLE_OP := CryptoOp(0, 0, 0, 0, Zeros(KEY_BYTES), Zeros(RESULT_BYTES))

  type Ops = s: seq<CryptoOp> | |s| == SLOT_COUNT witness [IDLE_OP, IDLE_OP]
  type ShortKey = b: Bytes | |b| <= KEY_BYTES

  datatype OpsAnd<+T> = OpsAnd(ops: Ops, value: T)

  function FreeOp(ops: Ops): (r: Option<nat>)
    ensures r.Some? ==> r.value < SLOT_COUNT && ops[r.value].state == 0
  {
    FirstIndex(ops, (op: CryptoOp) => op.state == 0)
  }

  function AllocateOp(ops: Ops, key: ShortKey): (r: OpsAnd<Option<u32>>)
  {
    var free := FreeOp(ops);
    if free.None? then OpsAnd(ops, None)
    else
      var op := ops[free.value];
      var generation := NextGeneration(op.generation);
      OpsAnd(ops[free.value := op.(generation := generation, state := 1, keyLen := |key|,
                                   key := key + op.key[|key|..])],
             Some(EncodeHandle(free.value, generation)))
  }

  datatype Begun = Begun(key: ShortKey, index: SlotIndex, generation: u32)

  function BeginUpdate(ops: Ops, handle: u32): (r: OpsAnd<Option<Begun>>)
  {
    match DecodeHandle(handle)
    case None => OpsAnd(ops, None)
    case Some((index, generation)) =>
      var op := ops[index];
      if op.generation != generation || op.state != 1 then OpsAnd(ops, None)
      else OpsAnd(ops[index := op.(state := 2)], Some(Begun(op.key[..op.keyLen], index, generation)))
  }

  function CompleteUpdate(ops: Ops, index: SlotIndex, generation: u32, result: Bytes): (r: OpsAnd<bool>)
  {
    var op := ops[index];
    if op.generation != generation || op.state != 2 || |result| > |op.result| then OpsAnd(ops, false)
    else OpsAnd(ops[index := op.(result := result + op.result[|result|..], resultLen := |result|, state := 3)], true)
  }

  function FailUpdate(ops: Ops, index: SlotIndex, generation: u32): (r: Ops)
  {
    if ops[index].generation == generation && ops[index].state == 2 then ops[index := Cleared(ops[index])] else ops
  }

  datatype Result = Result(bytes: ResultArray, length: ResultLength)

  function TakeResult(ops: Ops, handle: u32): (r: OpsAnd<Option<Result>>)
  {
    match DecodeHandle(handle)
    case None => OpsAnd(ops, None)
    case Some((index, generation)) =>
      var op := ops[index];
      if op.generation != generation || op.state != 3 then OpsAnd(ops, None)
      else OpsAnd(ops[index := Cleared(op)], Some(Result(op.result, op.resultLen)))
  }

  function DestroyOp(ops: Ops, handle: u32): (r: OpsAnd<bool>)
  {
    match DecodeHandle(handle)
    case None => OpsAnd(ops, false)
    case Some((index, generation)) =>
      if ops[index].generation != generation || ops[index].state == 0 then OpsAnd(ops, false)
      else OpsAnd(ops[index := Cleared(ops[index])], true)
  }

  function ClearAll(ops: Ops): (r: Ops)
  {
    [Cleared(ops[0]), Cleared(ops[1])]
  }

  // ----- one table with its history -----

  datatype Engine = HmacSm3 | AesCmac

  /** The two hardware primitives, whatever they compute. */
  datatype Hardware = Hardware(hmacSm3: (Bytes, Bytes) -> Bytes, aesCmac: (Bytes, Bytes) -> Bytes)

  function LengthOf(e: Engine): nat { if e.HmacSm3? then 32 else 16 }

  function Mac(hw: Hardware, e: Engine, key: Bytes, input: Bytes): Bytes {
    if e.HmacSm3? then hw.hmacSm3(key, input) else hw.aesCmac(key, input)
  }

  ghost predicate GoodHardware(hw: Hardware) {
    forall e, key, input :: |Mac(hw, e, key, input)| == LengthOf(e)
  }

  /** How often a slot was taken, the key each taking stored, the input of the
      update each taking let through, and of which taking the update was whose end
      gave each taking its result. */
  datatype SlotHistory = SlotHistory(epoch: nat, keys: map<nat, Bytes>, inputs: map<nat, Bytes>, ends: map<nat, nat>)

  const NO_HISTORY := SlotHistory(0, map[], map[], map[])

  type Histories = s: seq<SlotHistory> | |s| == SLOT_COUNT witness [NO_HISTORY, NO_HISTORY]

  datatype Table = Table(ops: Ops, history: Histories)

  function NewTable(): Table {
    Table([IDLE_OP, IDLE_OP], [NO_HISTORY, NO_HISTORY])
  }

  /** A slot shows exactly what its current taking put there: nothing when free,
      the key it was started with, and as a result what the update that ended there
      computed. */
  predicate GoodOp(hw: Hardware, e: Engine, op: CryptoOp, h: SlotHistory) {
    && op.generation == GenerationAfter(h.epoch)
    && op.state <= 3
    && (op.state == 0 ==> op == Cleared(op))
    && (op.state >= 1 ==>
          && h.epoch in h.keys
          && |h.keys[h.epoch]| <= KEY_BYTES
          && op.keyLen == |h.keys[h.epoch]|
          && op.key == Pad(h.keys[h.epoch], KEY_BYTES))
    && (op.state == 1 ==> h.epoch !in h.inputs)
    && (op.state >= 2 ==> h.epoch in h.inputs)
    && (1 <= op.state <= 2 ==> h.epoch !in h.ends)
    && (op.state < 3 ==> op.resultLen == 0 && op.result == Zeros(RESULT_BYTES))
    && (op.state == 3 ==>
          && Ended(h, h.epoch)
          && var result := ResultOf(hw, e, h, h.epoch);
             |result| == LengthOf(e) && op.resultLen == |result| && op.result == Pad(result, RESULT_BYTES))
  }

  /** Taking `n` got its result from an update of its own or of a taking whole
      periods earlier. */
  predicate Ended(h: SlotHistory, n: nat) {
    && n in h.ends
    && h.ends[n] in h.keys && h.ends[n] in h.inputs
    && h.ends[n] <= n && (n - h.ends[n]) % PERIOD == 0
  }

  function ResultOf(hw: Hardware, e: Engine, h: SlotHistory, n: nat): Bytes
    requires Ended(h, n)
  {
    Mac(hw, e, h.keys[h.ends[n]], h.inputs[h.ends[n]])
  }

  predicate GoodHistory(h: SlotHistory) {
    && (forall n :: n in h.keys ==> 1 <= n <= h.epoch)
    && (forall n :: n in h.inputs ==> n in h.keys)
    && (forall n :: n in h.ends ==> n <= h.epoch)
  }

  predicate TableInv(hw: Hardware, e: Engine, t: Table) {
    forall i :: 0 <= i < SLOT_COUNT ==> GoodOp(hw, e, t.ops[i], t.history[i]) && GoodHistory(t.history[i])
  }

  /** History is only added to. */
  predicate Grows(h: SlotHistory, later: SlotHistory) {
    && h.epoch <= later.epoch
    && (forall n :: n in h.keys ==> n in later.keys && later.keys[n] == h.keys[n])
    && (forall n :: n in h.inputs ==> n in later.inputs && later.inputs[n] == h.inputs[n])
    && (forall n :: n in h.ends ==> n in later.ends && later.ends[n] == h.ends[n])
  }

  predicate TableGrows(t: Table, later: Table) {
    Grows(t.history[0], later.history[0]) && Grows(t.history[1], later.history[1])
  }

  function AllocateIn(t: Table, key: ShortKey): (r: Table)
  {
    var free := FreeOp(t.ops);
    if free.None? then t
    else
      var h := t.history[free.value];
      Table(AllocateOp(t.ops, key).ops,
            t.history[free.value := h.(epoch := h.epoch + 1, keys := h.keys[h.epoch + 1 := key])])
  }

  function BeginIn(t: Table, handle: u32, input: Bytes): (r: Table)
  {
    var r := BeginUpdate(t.ops, handle);
    if r.value.None? then t
    else
      var i := r.value.value.index;
      var h := t.history[i];
      Table(r.ops, t.history[i := h.(inputs := h.inputs[h.epoch := input])])
  }

  /** The end of the hardware step of the update that taking `epoch` began. */
  function CompleteIn(t: Table, index: SlotIndex, epoch: nat, result: Bytes): (r: Table)
  {
    var r := CompleteUpdate(t.ops, index, GenerationAfter(epoch), result);
    var h := t.history[index];
    if r.value then Table(r.ops, t.history[index := h.(ends := h.ends[h.epoch := epoch])]) else t
  }

  lemma FreshOpIsGood(hw: Hardware, e: Engine, op: CryptoOp, h: SlotHistory, key: ShortKey)
    requires GoodOp(hw, e, op, h) && GoodHistory(h) && op.state == 0
    ensures var later := h.(epoch := h.epoch + 1, keys := h.keys[h.epoch + 1 := key]);
            && GoodOp(hw, e, op.(generation := NextGeneration(op.generation), state := 1, keyLen := |key|,
                                 key := key + op.key[|key|..]), later)
            && GoodHistory(later) && Grows(h, later)
  {
    GenerationAdvances(h.epoch);
    assert key + Zeros(KEY_BYTES)[|key|..] == Pad(key, KEY_BYTES);
  }

  lemma AllocateKeeps(hw: Hardware, e: Engine, t: Table, key: ShortKey)
    requires TableInv(hw, e, t)
    ensures TableInv(hw, e, AllocateIn(t, key)) && TableGrows(t, AllocateIn(t, key))
  {
    var free := FreeOp(t.ops);
    if free.Some? {
      FreshOpIsGood(hw, e, t.ops[free.value], t.history[free.value], key);
    }
  }

  /** The handle a start call returns names the slot and its new generation. */
  lemma AllocateReturns(hw: Hardware, e: Engine, t: Table, key: ShortKey)
    requires TableInv(hw, e, t) && FreeOp(t.ops).Some?
    ensures var i := FreeOp(t.ops).value;
            var h := AllocateIn(t, key).history[i];
            && h.epoch == t.history[i].epoch + 1
            && h.epoch in h.keys && h.keys[h.epoch] == key
            && AllocateOp(t.ops, key).value == Some(EncodeHandle(i, GenerationAfter(h.epoch)))
  {
    GenerationAdvances(t.history[FreeOp(t.ops).value].epoch);
  }

  /** Replacing one slot by a good one keeps the table. */
  lemma SlotUpdateKeeps(hw: Hardware, e: Engine, t: Table, i: SlotIndex, op: CryptoOp, h: SlotHistory)
    requires TableInv(hw, e, t)
    requires GoodOp(hw, e, op, h) && GoodHistory(h) && Grows(t.history[i], h)
    ensures var later := Table(t.ops[i := op], t.history[i := h]);
            TableInv(hw, e, later) && TableGrows(t, later)
  {
  }

  lemma BeginKeeps(hw: Hardware, e: Engine, t: Table, handle: u32, input: Bytes)
    requires TableInv(hw, e, t)
    ensures TableInv(hw, e, BeginIn(t, handle, input)) && TableGrows(t, BeginIn(t, handle, input))
  {
    var r := BeginUpdate(t.ops, handle);
    if r.value.Some? {
      var i := r.value.value.index;
      var h := t.history[i];
      var later := h.(inputs := h.inputs[h.epoch := input]);
      assert GoodOp(hw, e, t.ops[i], h) && GoodHistory(h);
      assert GoodOp(hw, e, t.ops[i].(state := 2), later) && GoodHistory(later);
      SlotUpdateKeeps(hw, e, t, i, t.ops[i].(state := 2), later);
    }
  }

  /** The key handed to the hardware is the one the slot was started with, and
      each taking of a slot lets only one update through. */
  lemma BeginReturns(hw: Hardware, e: Engine, t: Table, handle: u32, input: Bytes)
    requires TableInv(hw, e, t) && BeginUpdate(t.ops, handle).value.Some?
    ensures var b := BeginUpdate(t.ops, handle).value.value;
            var h := t.history[b.index];
            && b.generation == GenerationAfter(h.epoch)
            && h.epoch in h.keys && h.keys[h.epoch] == b.key
            && h.epoch !in h.inputs
            && BeginIn(t, handle, input).history[b.index] == h.(inputs := h.inputs[h.epoch := input])
  {
    var b := BeginUpdate(t.ops, handle).value.value;
    assert GoodOp(hw, e, t.ops[b.index], t.history[b.index]);
  }

  lemma ResultIsGood(hw: Hardware, e: Engine, op: CryptoOp, h: SlotHistory, epoch: nat)
    requires GoodOp(hw, e, op, h) && GoodHistory(h) && GoodHardware(hw) && op.state == 2
    requires epoch in h.keys && epoch in h.inputs && (h.epoch - epoch) % PERIOD == 0
    ensures var result := Mac(hw, e, h.keys[epoch], h.inputs[epoch]);
            var later := h.(ends := h.ends[h.epoch := epoch]);
            && |result| <= RESULT_BYTES
            && GoodOp(hw, e, op.(result := result + op.result[|result|..], resultLen := |result|, state := 3), later)
            && GoodHistory(later) && Grows(h, later)
  {
    var result := Mac(hw, e, h.keys[epoch], h.inputs[epoch]);
    assert |result| == LengthOf(e);
    assert result + Zeros(RESULT_BYTES)[|result|..] == Pad(result, RESULT_BYTES);
    assert Ended(h.(ends := h.ends[h.epoch := epoch]), h.epoch);
  }

  /** Ending an update, however late, keeps the table. */
  lemma EndKeeps(hw: Hardware, e: Engine, t: Table, index: SlotIndex, epoch: nat)
    requires TableInv(hw, e, t) && GoodHardware(hw)
    requires epoch in t.history[index].keys && epoch in t.history[index].inputs
    ensures var h := t.history[index];
            var ended := CompleteIn(t, index, epoch, Mac(hw, e, h.keys[epoch], h.inputs[epoch]));
            TableInv(hw, e, ended) && TableGrows(t, ended)
    ensures TableInv(hw, e, t.(ops := FailUpdate(t.ops, index, GenerationAfter(epoch))))
  {
    var op, h := t.ops[index], t.history[index];
    assert GoodOp(hw, e, op, h) && GoodHistory(h);
    if op.generation == GenerationAfter(epoch) && op.state == 2 {
      GenerationsRepeat(epoch, h.epoch);
      ResultIsGood(hw, e, op, h, epoch);
      CompletedKeeps(hw, e, t, index, epoch);
      FailedKeeps(hw, e, t, index);
    }
  }

  lemma CompletedKeeps(hw: Hardware, e: Engine, t: Table, index: SlotIndex, epoch: nat)
    requires TableInv(hw, e, t) && epoch in t.history[index].keys && epoch in t.history[index].inputs
    requires t.ops[index].generation == GenerationAfter(epoch) && t.ops[index].state == 2
    requires var op, h := t.ops[index], t.history[index];
             var result := Mac(hw, e, h.keys[epoch], h.inputs[epoch]);
             var later := h.(ends := h.ends[h.epoch := epoch]);
             && |result| <= RESULT_BYTES
             && GoodOp(hw, e, op.(result := result + op.result[|result|..], resultLen := |result|, state := 3), later)
             && GoodHistory(later) && Grows(h, later)
    ensures var h := t.history[index];
            var ended := CompleteIn(t, index, epoch, Mac(hw, e, h.keys[epoch], h.inputs[epoch]));
            TableInv(hw, e, ended) && TableGrows(t, ended)
  {
    var op, h := t.ops[index], t.history[index];
    var result := Mac(hw, e, h.keys[epoch], h.inputs[epoch]);
    SlotUpdateKeeps(hw, e, t, index, op.(result := result + op.result[|result|..], resultLen := |result|, state := 3),
                    h.(ends := h.ends[h.epoch := epoch]));
  }

  lemma FailedKeeps(hw: Hardware, e: Engine, t: Table, index: SlotIndex)
    requires TableInv(hw, e, t)
    ensures TableInv(hw, e, t.(ops := t.ops[index := Cleared(t.ops[index])]))
  {
    ClearedIsGood(hw, e, t.ops[index], t.history[index]);
    SlotUpdateKeeps(hw, e, t, index, Cleared(t.ops[index]), t.history[index]);
    assert t.history[index := t.history[index]] == t.history;
  }

  lemma ClearedIsGood(hw: Hardware, e: Engine, op: CryptoOp, h: SlotHistory)
    requires GoodOp(hw, e, op, h)
    ensures GoodOp(hw, e, Cleared(op), h)
  {
  }

  lemma ClearKeeps(hw: Hardware, e: Engine, t: Table, handle: u32)
    requires TableInv(hw, e, t)
    ensures TableInv(hw, e, t.(ops := TakeResult(t.ops, handle).ops))
    ensures TableInv(hw, e, t.(ops := DestroyOp(t.ops, handle).ops))
  {
    if DecodeHandle(handle).Some? {
      var i := Index(handle);
      ClearedIsGood(hw, e, t.ops[i], t.history[i]);
      SlotUpdateKeeps(hw, e, t, i, Cleared(t.ops[i]), t.history[i]);
      assert t.history[i := t.history[i]] == t.history;
    }
  }

  lemma ClearAllKeeps(hw: Hardware, e: Engine, t: Table)
    requires TableInv(hw, e, t)
    ensures TableInv(hw, e, t.(ops := ClearAll(t.ops)))
  {
    ClearedIsGood(hw, e, t.ops[0], t.history[0]);
    ClearedIsGood(hw, e, t.ops[1], t.history[1]);
  }

  /** The end of an update whose slot has moved on lands exactly when the
      hardware state matches and a whole number of periods has gone by. */
  lemma LateEndLandsIff(hw: Hardware, e: Engine, t: Table, index: SlotIndex, epoch: nat, result: Bytes)
    requires TableInv(hw, e, t) && |result| <= RESULT_BYTES
    requires 1 <= epoch <= t.history[index].epoch
    ensures CompleteUpdate(t.ops, index, GenerationAfter(epoch), result).value
            <==> t.ops[index].state == 2 && (t.history[index].epoch - epoch) % PERIOD == 0
  {
    GenerationsRepeat(epoch, t.history[index].epoch);
  }

  /** A taken result is what the update that ended in the slot computed, at the
      length the finish call expects; so its length test never rejects. */
  lemma TakenResultIsExact(hw: Hardware, e: Engine, t: Table, handle: u32)
    requires TableInv(hw, e, t) && TakeResult(t.ops, handle).value.Some?
    ensures var taken := TakeResult(t.ops, handle).value.value;
            var h := t.history[Index(handle)];
            && handle == EncodeHandle(Index(handle), GenerationAfter(h.epoch))
            && taken.length == LengthOf(e) && taken.length <= |taken.bytes|
            && h.epoch in h.keys && h.epoch in h.inputs && Ended(h, h.epoch)
            && taken.bytes[..taken.length] == ResultOf(hw, e, h, h.epoch)
  {
    EncodeDecoded(handle);
  }
}
