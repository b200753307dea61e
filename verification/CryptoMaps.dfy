/** The key and operation tables as what they stand for: finite maps from the handles
    in use, with room for two of each kind. */
module CryptoMaps {
  import opened Common
  import opened CryptoHandles
  import opened CryptoTables
  import opened CryptoOps

  // ----- keyslots and ladders by handle -----

  datatype SlotView = SlotView(kind: u32, key: Option<Bytes>)
  datatype Target = Target(destination: u32, keyslot: u32)
  datatype LadderView = LadderView(target: Option<Target>, engine: Option<u32>)

  datatype KeyMaps = KeyMaps(slots: map<u32, SlotView>, ladders: map<u32, LadderView>)

  predicate NobodyPointsAt(a: KeyMaps, keyslot: u32) {
    forall l :: l in a.ladders && a.ladders[l].target.Some? ==> a.ladders[l].target.value.keyslot != keyslot
  }

  /** The keyslot a clear key would reach: the ladder is attached to it, the engine fits
      the kind, and the key has a legal length. */
  predicate TakesKey(a: KeyMaps, ladder: u32, key: Bytes, hmacType: u32) {
    && ladder in a.ladders && a.ladders[ladder].target.Some?
    && var t := a.ladders[ladder].target.value;
       && t.keyslot in a.slots
       && (if a.slots[t.keyslot].kind == KEYSLOT_MCIPHER then a.ladders[ladder].engine == Some(ENGINE_AES) && |key| == 16
           else a.ladders[ladder].engine == Some(ENGINE_SM3_HMAC) && hmacType == HMAC_SM3 && 1 <= |key| <= KEY_BYTES)
  }

  /** Whether a call succeeds; there is room for two keyslots and two ladders. */
  predicate MapAccepts(a: KeyMaps, call: KeyCall) {
    match call
    case CreateKeyslot(kind) => (kind == KEYSLOT_MCIPHER || kind == KEYSLOT_HMAC) && |a.slots| < SLOT_COUNT
    case DestroyKeyslot(handle) => handle in a.slots && NobodyPointsAt(a, handle)
    case CreateKlad => |a.ladders| < SLOT_COUNT
    case DestroyKlad(handle) => handle in a.ladders && a.ladders[handle].target.None?
    case Attach(handle, destination, keyslot) =>
      && handle in a.ladders && a.ladders[handle].target.None?
      && keyslot in a.slots && Compatible(destination, a.slots[keyslot].kind)
    case Detach(handle, destination, keyslot) =>
      handle in a.ladders && DetachMatches(a.ladders[handle].target, destination, keyslot)
    case SetAttr(handle, engine) => handle in a.ladders && (engine == ENGINE_AES || engine == ENGINE_SM3_HMAC)
    case SetClearKey(handle, key, hmacType) => TakesKey(a, handle, key, hmacType)
    case ResetKeys => true
  }

  /** A detached ladder also answers to the values that stand for no attachment. */
  predicate DetachMatches(target: Option<Target>, destination: u32, keyslot: u32) {
    if target.Some? then target.value == Target(destination, keyslot) else destination == UNSET && keyslot == 0
  }

  /** What a call does to the maps; `created` is the handle a creation hands out. */
  function MapNext(a: KeyMaps, call: KeyCall, created: u32): KeyMaps {
    if !MapAccepts(a, call) then a
    else match call
      case CreateKeyslot(kind) => a.(slots := a.slots[created := SlotView(kind, None)])
      case DestroyKeyslot(handle) => a.(slots := a.slots - {handle})
      case CreateKlad => a.(ladders := a.ladders[created := LadderView(None, None)])
      case DestroyKlad(handle) => a.(ladders := a.ladders - {handle})
      case Attach(handle, destination, keyslot) =>
        a.(ladders := a.ladders[handle := a.ladders[handle].(target := Some(Target(destination, keyslot)))])
      case Detach(handle, _, _) => a.(ladders := a.ladders[handle := a.ladders[handle].(target := None)])
      case SetAttr(handle, engine) => a.(ladders := a.ladders[handle := a.ladders[handle].(engine := Some(engine))])
      case SetClearKey(handle, key, _) =>
        var slot := a.ladders[handle].target.value.keyslot;
        a.(slots := a.slots[slot := a.slots[slot].(key := Some(key))])
      case ResetKeys => KeyMaps(map[], map[])
  }

  // ----- the tables represent the maps -----

  function ViewSlot(slot: Keyslot): SlotView {
    SlotView(slot.kind, if slot.keyLen == 0 then None else Some(slot.key[..slot.keyLen]))
  }

  function ViewKlad(klad: Klad): LadderView {
    LadderView(if klad.keyslot == 0 then None else Some(Target(klad.destination, klad.keyslot)),
               if klad.engine == UNSET then None else Some(klad.engine))
  }

  ghost predicate SlotsMatch(k: Keys, slots: map<u32, SlotView>) {
    && (forall h: u32 :: h in slots <==> LiveKeyslot(k, h))
    && (forall h: u32 :: h in slots ==> slots[h] == ViewSlot(k.keyslots[Index(h)]))
  }

  ghost predicate LaddersMatch(k: Keys, ladders: map<u32, LadderView>) {
    && (forall h: u32 :: h in ladders <==> LiveKlad(k, h))
    && (forall h: u32 :: h in ladders ==> ladders[h] == ViewKlad(k.klads[Index(h)]))
  }

  ghost predicate Represents(k: Keys, a: KeyMaps) {
    SlotsMatch(k, a.slots) && LaddersMatch(k, a.ladders)
  }

  /** The handle a creation hands out. */
  function FreshHandle(k: Keys, call: KeyCall): u32 {
    var created := if call.CreateKeyslot? then KeyslotCreate(k, call.kind).value
                   else if call.CreateKlad? then KladCreate(k).value else None;
    if created.Some? then created.value else 0
  }

  /** A slot and generation in use have one handle. */
  lemma HandleIs(h: u32, index: SlotIndex, generation: u32)
    requires 1 <= generation < GENERATIONS
    ensures h == EncodeHandle(index, generation) <==> DecodeHandle(h) == Some((index, generation))
  {
    DecodeEncoded(index, generation);
    if DecodeHandle(h).Some? {
      EncodeDecoded(h);
    }
  }

  lemma NextGenerationInUse(generation: u32)
    ensures 1 <= NextGeneration(generation) < GENERATIONS
  {
  }

  lemma SlotCount(k: Keys, slots: map<u32, SlotView>)
    requires SlotsMatch(k, slots) && forall i :: 0 <= i < SLOT_COUNT ==> GoodKeyslot(k.keyslots[i])
    ensures |slots| == One(k.keyslots[0].inUse) + One(k.keyslots[1].inUse)
  {
    var x, y := k.keyslots[0], k.keyslots[1];
    forall h: u32
      ensures h in slots <==> (x.inUse && h == EncodeHandle(0, x.generation)) || (y.inUse && h == EncodeHandle(1, y.generation))
    {
      if x.inUse { HandleIs(h, 0, x.generation); }
      if y.inUse { HandleIs(h, 1, y.generation); }
    }
    if x.inUse && y.inUse {
      DifferentSlots(x.generation, y.generation);
    }
    TwoKeys(slots, x.inUse, y.inUse, EncodeHandle(0, x.generation), EncodeHandle(1, y.generation));
  }

  lemma LadderCount(k: Keys, ladders: map<u32, LadderView>)
    requires LaddersMatch(k, ladders)
    requires forall i :: 0 <= i < SLOT_COUNT && k.klads[i].inUse ==> 1 <= k.klads[i].generation < GENERATIONS
    ensures |ladders| == One(k.klads[0].inUse) + One(k.klads[1].inUse)
  {
    var x, y := k.klads[0], k.klads[1];
    forall h: u32
      ensures h in ladders <==> (x.inUse && h == EncodeHandle(0, x.generation)) || (y.inUse && h == EncodeHandle(1, y.generation))
    {
      if x.inUse { HandleIs(h, 0, x.generation); }
      if y.inUse { HandleIs(h, 1, y.generation); }
    }
    if x.inUse && y.inUse {
      DifferentSlots(x.generation, y.generation);
    }
    TwoKeys(ladders, x.inUse, y.inUse, EncodeHandle(0, x.generation), EncodeHandle(1, y.generation));
  }

  lemma DifferentSlots(g: u32, g': u32)
    requires 1 <= g < GENERATIONS && 1 <= g' < GENERATIONS
    ensures EncodeHandle(0, g) != EncodeHandle(1, g')
  {
    DecodeEncoded(0, g);
    DecodeEncoded(1, g');
  }

  lemma TwoKeys<V>(m: map<u32, V>, first: bool, second: bool, a: u32, b: u32)
    requires forall h :: h in m <==> (first && h == a) || (second && h == b)
    requires first && second ==> a != b
    ensures |m| == One(first) + One(second)
  {
    assert m.Keys == (if first then {a} else {}) + (if second then {b} else {});
  }

  // ----- each call does to the maps what it does to the tables -----

  ghost predicate Follows(k: Keys, a: KeyMaps, call: KeyCall) {
    && (Succeeds(k, call) <==> MapAccepts(a, call))
    && Represents(KeyStep(k, call), MapNext(a, call, FreshHandle(k, call)))
    && (MapAccepts(a, call) && call.CreateKeyslot? ==> FreshHandle(k, call) !in a.slots)
    && (MapAccepts(a, call) && call.CreateKlad? ==> FreshHandle(k, call) !in a.ladders)
  }

  lemma LaddersUnaffected(k: Keys, t: Keys, ladders: map<u32, LadderView>)
    requires LaddersMatch(k, ladders) && t.klads == k.klads
    ensures LaddersMatch(t, ladders)
  {
    assert forall h: u32 :: LiveKlad(t, h) == LiveKlad(k, h);
  }

  lemma SlotsUnaffected(k: Keys, t: Keys, slots: map<u32, SlotView>)
    requires SlotsMatch(k, slots) && t.keyslots == k.keyslots
    ensures SlotsMatch(t, slots)
  {
    assert forall h: u32 :: LiveKeyslot(t, h) == LiveKeyslot(k, h);
  }

  lemma SlotAdded(k: Keys, slots: map<u32, SlotView>, i: SlotIndex, slot: Keyslot)
    requires SlotsMatch(k, slots) && !k.keyslots[i].inUse && slot.inUse && 1 <= slot.generation < GENERATIONS
    ensures SlotsMatch(k.(keyslots := k.keyslots[i := slot]), slots[EncodeHandle(i, slot.generation) := ViewSlot(slot)])
    ensures EncodeHandle(i, slot.generation) !in slots
  {
    var t := k.(keyslots := k.keyslots[i := slot]);
    forall h: u32
      ensures LiveKeyslot(t, h) <==> LiveKeyslot(k, h) || h == EncodeHandle(i, slot.generation)
      ensures h == EncodeHandle(i, slot.generation) ==> Index(h) == i && !LiveKeyslot(k, h)
      ensures LiveKeyslot(k, h) ==> Index(h) != i
    {
      HandleIs(h, i, slot.generation);
    }
  }

  lemma LadderAdded(k: Keys, ladders: map<u32, LadderView>, i: SlotIndex, klad: Klad)
    requires LaddersMatch(k, ladders) && !k.klads[i].inUse && klad.inUse && 1 <= klad.generation < GENERATIONS
    ensures LaddersMatch(k.(klads := k.klads[i := klad]), ladders[EncodeHandle(i, klad.generation) := ViewKlad(klad)])
    ensures EncodeHandle(i, klad.generation) !in ladders
  {
    var t := k.(klads := k.klads[i := klad]);
    forall h: u32
      ensures LiveKlad(t, h) <==> LiveKlad(k, h) || h == EncodeHandle(i, klad.generation)
      ensures h == EncodeHandle(i, klad.generation) ==> Index(h) == i && !LiveKlad(k, h)
      ensures LiveKlad(k, h) ==> Index(h) != i
    {
      HandleIs(h, i, klad.generation);
    }
  }

  lemma CreateKeyslotFollows(k: Keys, a: KeyMaps, kind: u32)
    requires KeysInv(k) && Represents(k, a)
    ensures Follows(k, a, CreateKeyslot(kind))
  {
    SlotCount(k, a.slots);
    var call := CreateKeyslot(kind);
    if Succeeds(k, call) {
      var i := FreeKeyslot(k).value;
      var g := NextGeneration(k.keyslots[i].generation);
      NextGenerationInUse(k.keyslots[i].generation);
      SlotAdded(k, a.slots, i, Keyslot(g, kind, 0, true, Zeros(KEY_BYTES)));
      LaddersUnaffected(k, KeyStep(k, call), a.ladders);
    }
  }

  lemma CreateKladFollows(k: Keys, a: KeyMaps)
    requires KeysInv(k) && Represents(k, a)
    ensures Follows(k, a, CreateKlad)
  {
    assert GoodKlad(k, k.klads[0]) && GoodKlad(k, k.klads[1]);
    LadderCount(k, a.ladders);
    if Succeeds(k, CreateKlad) {
      var i := FreeKlad(k).value;
      var g := NextGeneration(k.klads[i].generation);
      NextGenerationInUse(k.klads[i].generation);
      LadderAdded(k, a.ladders, i, Klad(g, UNSET, 0, UNSET, true));
      SlotsUnaffected(k, KeyStep(k, CreateKlad), a.slots);
    }
  }

  /** A live handle is the only one of its slot. */
  lemma OneLiveHandle(k: Keys, h: u32, other: u32)
    ensures LiveKeyslot(k, h) && LiveKeyslot(k, other) && Index(h) == Index(other) ==> h == other
    ensures LiveKlad(k, h) && LiveKlad(k, other) && Index(h) == Index(other) ==> h == other
  {
    if DecodeHandle(h).Some? && DecodeHandle(other).Some? {
      EncodeDecoded(h);
      EncodeDecoded(other);
    }
  }

  /** Ladders that point at a handle, in the table and in the map. */
  lemma PointersAgree(k: Keys, a: KeyMaps, handle: u32)
    requires KeysInv(k) && LaddersMatch(k, a.ladders) && handle != 0
    ensures NobodyPointsAt(a, handle) <==> !(exists i :: 0 <= i < |k.klads| && k.klads[i].inUse && k.klads[i].keyslot == handle)
  {
    if exists i :: 0 <= i < |k.klads| && k.klads[i].inUse && k.klads[i].keyslot == handle {
      var i :| 0 <= i < |k.klads| && k.klads[i].inUse && k.klads[i].keyslot == handle;
      var l := EncodeHandle(i, k.klads[i].generation);
      HandleIs(l, i, k.klads[i].generation);
      assert l in a.ladders && a.ladders[l].target.value.keyslot == handle;
    }
    if !NobodyPointsAt(a, handle) {
      var l :| l in a.ladders && a.ladders[l].target.Some? && a.ladders[l].target.value.keyslot == handle;
      assert k.klads[Index(l)].inUse && k.klads[Index(l)].keyslot == handle;
    }
  }

  lemma SlotRemoved(k: Keys, slots: map<u32, SlotView>, handle: u32, slot: Keyslot)
    requires SlotsMatch(k, slots) && LiveKeyslot(k, handle) && !slot.inUse
    ensures SlotsMatch(k.(keyslots := k.keyslots[Index(handle) := slot]), slots - {handle})
  {
    var t := k.(keyslots := k.keyslots[Index(handle) := slot]);
    forall h: u32
      ensures LiveKeyslot(t, h) <==> LiveKeyslot(k, h) && h != handle
    {
      OneLiveHandle(k, h, handle);
    }
  }

  lemma SlotRewritten(k: Keys, slots: map<u32, SlotView>, handle: u32, slot: Keyslot)
    requires SlotsMatch(k, slots) && LiveKeyslot(k, handle)
    requires slot.inUse && slot.generation == k.keyslots[Index(handle)].generation
    ensures SlotsMatch(k.(keyslots := k.keyslots[Index(handle) := slot]), slots[handle := ViewSlot(slot)])
  {
    var t := k.(keyslots := k.keyslots[Index(handle) := slot]);
    forall h: u32
      ensures LiveKeyslot(t, h) <==> LiveKeyslot(k, h)
      ensures LiveKeyslot(k, h) && h != handle ==> t.keyslots[Index(h)] == k.keyslots[Index(h)]
    {
      OneLiveHandle(k, h, handle);
    }
  }

  lemma LadderRemoved(k: Keys, ladders: map<u32, LadderView>, handle: u32, klad: Klad)
    requires LaddersMatch(k, ladders) && LiveKlad(k, handle) && !klad.inUse
    ensures LaddersMatch(SetKlad(k, handle, klad), ladders - {handle})
  {
    var t := SetKlad(k, handle, klad);
    forall h: u32
      ensures LiveKlad(t, h) <==> LiveKlad(k, h) && h != handle
    {
      OneLiveHandle(k, h, handle);
    }
  }

  lemma LadderRewritten(k: Keys, ladders: map<u32, LadderView>, handle: u32, klad: Klad)
    requires LaddersMatch(k, ladders) && LiveKlad(k, handle)
    requires klad.inUse && klad.generation == k.klads[Index(handle)].generation
    ensures LaddersMatch(SetKlad(k, handle, klad), ladders[handle := ViewKlad(klad)])
  {
    var t := SetKlad(k, handle, klad);
    forall h: u32
      ensures LiveKlad(t, h) <==> LiveKlad(k, h)
      ensures LiveKlad(k, h) && h != handle ==> t.klads[Index(h)] == k.klads[Index(h)]
    {
      OneLiveHandle(k, h, handle);
    }
  }

  lemma DestroyKeyslotFollows(k: Keys, a: KeyMaps, handle: u32)
    requires KeysInv(k) && Represents(k, a)
    ensures Follows(k, a, DestroyKeyslot(handle))
  {
    if handle != 0 {
      PointersAgree(k, a, handle);
    }
    var call := DestroyKeyslot(handle);
    if Succeeds(k, call) {
      var t := KeyStep(k, call);
      SlotRemoved(k, a.slots, handle, t.keyslots[Index(handle)]);
      LaddersUnaffected(k, t, a.ladders);
    }
  }

  lemma DestroyKladFollows(k: Keys, a: KeyMaps, handle: u32)
    requires KeysInv(k) && Represents(k, a)
    ensures Follows(k, a, DestroyKlad(handle))
  {
    var call := DestroyKlad(handle);
    if Succeeds(k, call) {
      var t := KeyStep(k, call);
      LadderRemoved(k, a.ladders, handle, t.klads[Index(handle)]);
      SlotsUnaffected(k, t, a.slots);
    }
  }

  lemma AttachFollows(k: Keys, a: KeyMaps, handle: u32, destination: u32, keyslot: u32)
    requires KeysInv(k) && Represents(k, a)
    ensures Follows(k, a, Attach(handle, destination, keyslot))
  {
    var call := Attach(handle, destination, keyslot);
    if Succeeds(k, call) {
      var t := KeyStep(k, call);
      LadderRewritten(k, a.ladders, handle, t.klads[Index(handle)]);
      SlotsUnaffected(k, t, a.slots);
    }
  }

  lemma DetachFollows(k: Keys, a: KeyMaps, handle: u32, destination: u32, keyslot: u32)
    requires KeysInv(k) && Represents(k, a)
    ensures Follows(k, a, Detach(handle, destination, keyslot))
  {
    var call := Detach(handle, destination, keyslot);
    if LiveKlad(k, handle) {
      assert GoodKlad(k, k.klads[Index(handle)]);
    }
    if Succeeds(k, call) {
      var t := KeyStep(k, call);
      LadderRewritten(k, a.ladders, handle, t.klads[Index(handle)]);
      SlotsUnaffected(k, t, a.slots);
    }
  }

  lemma SetAttrFollows(k: Keys, a: KeyMaps, handle: u32, engine: u32)
    requires Represents(k, a)
    ensures Follows(k, a, SetAttr(handle, engine))
  {
    var call := SetAttr(handle, engine);
    if Succeeds(k, call) {
      var t := KeyStep(k, call);
      LadderRewritten(k, a.ladders, handle, t.klads[Index(handle)]);
      SlotsUnaffected(k, t, a.slots);
    }
  }

  lemma SetClearKeyAccepted(k: Keys, a: KeyMaps, handle: u32, key: Bytes, hmacType: u32)
    requires KeysInv(k) && Represents(k, a)
    ensures KladSetClearKey(k, handle, key, hmacType).value <==> TakesKey(a, handle, key, hmacType)
  {
    if LiveKlad(k, handle) {
      var klad := k.klads[Index(handle)];
      assert GoodKlad(k, klad);
      if klad.keyslot != 0 {
        assert GoodKeyslot(k.keyslots[Index(klad.keyslot)]);
      }
    }
  }

  lemma SetClearKeyFollows(k: Keys, a: KeyMaps, handle: u32, key: Bytes, hmacType: u32)
    requires KeysInv(k) && Represents(k, a)
    ensures Follows(k, a, SetClearKey(handle, key, hmacType))
  {
    SetClearKeyAccepted(k, a, handle, key, hmacType);
    var call := SetClearKey(handle, key, hmacType);
    if Succeeds(k, call) {
      var t, keyslot := KeyStep(k, call), k.klads[Index(handle)].keyslot;
      var slot := t.keyslots[Index(keyslot)];
      assert slot.key[..|key|] == key && ViewSlot(slot) == a.slots[keyslot].(key := Some(key));
      SlotRewritten(k, a.slots, keyslot, slot);
      LaddersUnaffected(k, t, a.ladders);
    }
  }

  lemma CallFollows(k: Keys, a: KeyMaps, call: KeyCall)
    requires KeysInv(k) && Represents(k, a)
    ensures Follows(k, a, call)
  {
    match call
    case CreateKeyslot(kind) => CreateKeyslotFollows(k, a, kind);
    case DestroyKeyslot(handle) => DestroyKeyslotFollows(k, a, handle);
    case CreateKlad => CreateKladFollows(k, a);
    case DestroyKlad(handle) => DestroyKladFollows(k, a, handle);
    case SetClearKey(handle, key, hmacType) => SetClearKeyFollows(k, a, handle, key, hmacType);
    case ResetKeys =>
    case Attach(handle, destination, keyslot) => AttachFollows(k, a, handle, destination, keyslot);
    case Detach(handle, destination, keyslot) => DetachFollows(k, a, handle, destination, keyslot);
    case SetAttr(handle, engine) => SetAttrFollows(k, a, handle, engine);
  }

  // ----- over every sequence of calls -----

  function KeysAfter(calls: seq<KeyCall>): Keys {
    KeyRun(NewKeys(), calls)
  }

  function MapsAfter(calls: seq<KeyCall>): KeyMaps {
    if calls == [] then KeyMaps(map[], map[])
    else
      var before, call := calls[..|calls| - 1], calls[|calls| - 1];
      MapNext(MapsAfter(before), call, FreshHandle(KeysAfter(before), call))
  }

  lemma {:induction false} KeyRunThenCall(k: Keys, calls: seq<KeyCall>, call: KeyCall)
    ensures KeyRun(k, calls + [call]) == KeyStep(KeyRun(k, calls), call)
    decreases |calls|
  {
    if calls == [] {
      assert calls + [call] == [call];
    } else {
      assert (calls + [call])[1..] == calls[1..] + [call];
      KeyRunThenCall(KeyStep(k, calls[0]), calls[1..], call);
    }
  }

  /** After any calls the tables represent the maps, and each further call succeeds
      exactly when the maps accept it. */
  lemma {:induction false} TablesRefineMaps(calls: seq<KeyCall>, call: KeyCall)
    ensures KeysInv(KeysAfter(calls)) && Represents(KeysAfter(calls), MapsAfter(calls))
    ensures Follows(KeysAfter(calls), MapsAfter(calls), call)
    decreases |calls|
  {
    KeyRunKeepsInv(NewKeys(), calls);
    if calls == [] {
      NothingLive();
    } else {
      var before, last := calls[..|calls| - 1], calls[|calls| - 1];
      assert calls == before + [last];
      TablesRefineMaps(before, last);
      KeyRunThenCall(NewKeys(), before, last);
    }
    CallFollows(KeysAfter(calls), MapsAfter(calls), call);
  }

  lemma NothingLive()
    ensures Represents(NewKeys(), KeyMaps(map[], map[]))
  {
  }

  /** The clear key last set through a ladder attached to the keyslot, since the
      keyslot was created; nothing when none was. */
  function LastKey(calls: seq<KeyCall>, keyslot: u32): Option<Bytes> {
    if calls == [] then None
    else
      var before, call := calls[..|calls| - 1], calls[|calls| - 1];
      if SetsKey(MapsAfter(before), call, keyslot) then Some(call.key)
      else if Creates(KeysAfter(before), call, keyslot) then None
      else LastKey(before, keyslot)
  }

  predicate SetsKey(a: KeyMaps, call: KeyCall, keyslot: u32) {
    && call.SetClearKey? && TakesKey(a, call.handle, call.key, call.hmacType)
    && a.ladders[call.handle].target.value.keyslot == keyslot
  }

  predicate Creates(k: Keys, call: KeyCall, keyslot: u32) {
    call.CreateKeyslot? && KeyslotCreate(k, call.kind).value == Some(keyslot)
  }

  /** After any calls, what a start call reads from a keyslot in use and of its kind is
      the clear key last set since the keyslot was created; from any other it reads
      nothing. */
  lemma StartReadsLastKey(calls: seq<KeyCall>, keyslot: u32, kind: u32)
    ensures var slots := MapsAfter(calls).slots;
            KeyslotMaterial(KeysAfter(calls), keyslot, kind)
            == (if keyslot in slots && slots[keyslot].kind == kind then LastKey(calls, keyslot) else None)
  {
    TablesRefineMaps(calls, ResetKeys);
    if keyslot in MapsAfter(calls).slots {
      MapHoldsLastKey(calls, keyslot);
    }
  }

  /** What one call leaves as the key of a keyslot in use. */
  lemma KeyAfterCall(a: KeyMaps, call: KeyCall, created: u32, keyslot: u32)
    requires keyslot in MapNext(a, call, created).slots
    ensures var key := MapNext(a, call, created).slots[keyslot].key;
            if SetsKey(a, call, keyslot) then key == Some(call.key)
            else if call.CreateKeyslot? && MapAccepts(a, call) && created == keyslot then key == None
            else keyslot in a.slots && key == a.slots[keyslot].key
  {
  }

  lemma CreatesAsMap(k: Keys, a: KeyMaps, call: KeyCall, keyslot: u32)
    requires Succeeds(k, call) <==> MapAccepts(a, call)
    ensures Creates(k, call, keyslot) <==> call.CreateKeyslot? && MapAccepts(a, call) && FreshHandle(k, call) == keyslot
  {
  }

  lemma {:induction false} MapHoldsLastKey(calls: seq<KeyCall>, keyslot: u32)
    requires keyslot in MapsAfter(calls).slots
    ensures MapsAfter(calls).slots[keyslot].key == LastKey(calls, keyslot)
    decreases |calls|
  {
    if calls == [] {
    } else {
      var before, call := calls[..|calls| - 1], calls[|calls| - 1];
      var k, a := KeysAfter(before), MapsAfter(before);
      assert Succeeds(k, call) <==> MapAccepts(a, call) by {
        TablesRefineMaps(before, call);
      }
      KeyAfterCall(a, call, FreshHandle(k, call), keyslot);
      CreatesAsMap(k, a, call, keyslot);
      if !SetsKey(a, call, keyslot) && !Creates(k, call, keyslot) {
        MapHoldsLastKey(before, keyslot);
      }
    }
  }

  /** A clear key that is set is what the keyslot then yields to a start call of the
      right engine; nothing else changes. */
  lemma ClearKeyIsStored(calls: seq<KeyCall>, ladder: u32, key: Bytes, hmacType: u32)
    requires Succeeds(KeysAfter(calls), SetClearKey(ladder, key, hmacType))
    ensures var k, t := KeysAfter(calls), KeysAfter(calls + [SetClearKey(ladder, key, hmacType)]);
            var keyslot := k.klads[Index(ladder)].keyslot;
            && LiveKeyslot(t, keyslot)
            && KeyslotMaterial(t, keyslot, t.keyslots[Index(keyslot)].kind) == Some(key)
            && t.keyslots[Index(keyslot)].kind == k.keyslots[Index(keyslot)].kind
            && t.keyslots[1 - Index(keyslot)] == k.keyslots[1 - Index(keyslot)]
            && t.klads == k.klads
  {
    KeyRunThenCall(NewKeys(), calls, SetClearKey(ladder, key, hmacType));
  }

  // ----- operations by handle -----

  datatype OpView = Started(key: Bytes) | Running(key: Bytes) | Done(result: Bytes)

  type OpMap = map<u32, OpView>

  predicate LiveOp(ops: Ops, handle: u32) {
    var d := DecodeHandle(handle);
    d.Some? && ops[d.value.0].state != 0 && ops[d.value.0].generation == d.value.1
  }

  function ViewOp(op: CryptoOp): OpView {
    if op.state == 3 then Done(op.result[..op.resultLen])
    else if op.state == 2 then Running(op.key[..op.keyLen]) else Started(op.key[..op.keyLen])
  }

  ghost predicate OpsMatch(ops: Ops, m: OpMap) {
    && (forall h: u32 :: h in m <==> LiveOp(ops, h))
    && (forall h: u32 :: h in m ==> m[h] == ViewOp(ops[Index(h)]))
  }

  /** A free slot holds zeros only, and a slot in use has a generation in use. */
  predicate CleanOp(op: CryptoOp) {
    && op.state <= 3
    && op.generation < GENERATIONS
    && (op.state != 0 ==> op.generation >= 1)
    && (op.state == 0 ==> op.keyLen == 0 && op.resultLen == 0 && op.key == Zeros(KEY_BYTES) && op.result == Zeros(RESULT_BYTES))
  }

  predicate CleanOps(ops: Ops) {
    CleanOp(ops[0]) && CleanOp(ops[1])
  }

  lemma OpCount(ops: Ops, m: OpMap)
    requires CleanOps(ops) && OpsMatch(ops, m)
    ensures |m| == One(ops[0].state != 0) + One(ops[1].state != 0)
  {
    var x, y := ops[0], ops[1];
    forall h: u32
      ensures h in m <==> (x.state != 0 && h == EncodeHandle(0, x.generation)) || (y.state != 0 && h == EncodeHandle(1, y.generation))
    {
      if x.state != 0 { HandleIs(h, 0, x.generation); }
      if y.state != 0 { HandleIs(h, 1, y.generation); }
    }
    if x.state != 0 && y.state != 0 {
      DifferentSlots(x.generation, y.generation);
    }
    TwoKeys(m, x.state != 0, y.state != 0, EncodeHandle(0, x.generation), EncodeHandle(1, y.generation));
  }

  lemma OneLiveOp(ops: Ops, h: u32, other: u32)
    requires LiveOp(ops, h) && LiveOp(ops, other) && Index(h) == Index(other)
    ensures h == other
  {
    EncodeDecoded(h);
    EncodeDecoded(other);
  }

  lemma OpAdded(ops: Ops, m: OpMap, i: SlotIndex, op: CryptoOp)
    requires OpsMatch(ops, m) && ops[i].state == 0 && op.state != 0 && 1 <= op.generation < GENERATIONS
    ensures EncodeHandle(i, op.generation) !in m
    ensures OpsMatch(ops[i := op], m[EncodeHandle(i, op.generation) := ViewOp(op)])
  {
    forall h: u32
      ensures LiveOp(ops[i := op], h) <==> LiveOp(ops, h) || h == EncodeHandle(i, op.generation)
      ensures h == EncodeHandle(i, op.generation) ==> Index(h) == i && !LiveOp(ops, h)
      ensures LiveOp(ops, h) ==> Index(h) != i
    {
      HandleIs(h, i, op.generation);
    }
  }

  lemma OpRewritten(ops: Ops, m: OpMap, handle: u32, op: CryptoOp)
    requires OpsMatch(ops, m) && LiveOp(ops, handle)
    requires op.state != 0 && op.generation == ops[Index(handle)].generation
    ensures OpsMatch(ops[Index(handle) := op], m[handle := ViewOp(op)])
  {
    var t: Ops := ops[Index(handle) := op];
    forall h: u32
      ensures LiveOp(t, h) <==> LiveOp(ops, h)
      ensures LiveOp(ops, h) && h != handle ==> t[Index(h)] == ops[Index(h)]
    {
      if LiveOp(ops, h) && Index(h) == Index(handle) {
        OneLiveOp(ops, h, handle);
      }
    }
  }

  lemma OpRemoved(ops: Ops, m: OpMap, handle: u32)
    requires OpsMatch(ops, m) && LiveOp(ops, handle)
    ensures OpsMatch(ops[Index(handle) := Cleared(ops[Index(handle)])], m - {handle})
  {
    var t: Ops := ops[Index(handle) := Cleared(ops[Index(handle)])];
    forall h: u32
      ensures LiveOp(t, h) <==> LiveOp(ops, h) && h != handle
    {
      if LiveOp(ops, h) && Index(h) == Index(handle) {
        OneLiveOp(ops, h, handle);
      }
    }
  }

  /** A start succeeds exactly while fewer than two operations are live, and its
      handle is new. */
  lemma AllocateFollows(ops: Ops, m: OpMap, key: ShortKey)
    requires CleanOps(ops) && OpsMatch(ops, m)
    ensures var r := AllocateOp(ops, key);
            && CleanOps(r.ops)
            && (r.value.Some? <==> |m| < SLOT_COUNT)
            && (r.value.None? ==> r.ops == ops)
            && (r.value.Some? ==> r.value.value !in m && OpsMatch(r.ops, m[r.value.value := Started(key)]))
  {
    OpCount(ops, m);
    var r := AllocateOp(ops, key);
    if r.value.Some? {
      var i := FreeOp(ops).value;
      NextGenerationInUse(ops[i].generation);
      assert r.ops[i].key[..|key|] == key;
      OpAdded(ops, m, i, r.ops[i]);
    }
  }

  /** The hardware step begins exactly on a started operation, with its key. */
  lemma BeginFollows(ops: Ops, m: OpMap, handle: u32)
    requires CleanOps(ops) && OpsMatch(ops, m)
    ensures var r := BeginUpdate(ops, handle);
            && CleanOps(r.ops)
            && (r.value.Some? <==> handle in m && m[handle].Started?)
            && (r.value.None? ==> r.ops == ops)
            && (r.value.Some? ==>
                  && r.value.value.key == m[handle].key
                  && 1 <= r.value.value.generation < GENERATIONS
                  && handle == EncodeHandle(r.value.value.index, r.value.value.generation)
                  && OpsMatch(r.ops, m[handle := Running(m[handle].key)]))
  {
    var r := BeginUpdate(ops, handle);
    if r.value.Some? {
      EncodeDecoded(handle);
      OpRewritten(ops, m, handle, r.ops[Index(handle)]);
    }
  }

  /** The end of a hardware step lands exactly when the operation it began on is
      still, or again, running. */
  lemma CompleteFollows(ops: Ops, m: OpMap, index: SlotIndex, generation: u32, result: Bytes)
    requires CleanOps(ops) && OpsMatch(ops, m) && 1 <= generation < GENERATIONS && |result| <= RESULT_BYTES
    ensures var r := CompleteUpdate(ops, index, generation, result);
            var handle := EncodeHandle(index, generation);
            && CleanOps(r.ops)
            && (r.value <==> handle in m && m[handle].Running?)
            && OpsMatch(r.ops, if r.value then m[handle := Done(result)] else m)
  {
    var r := CompleteUpdate(ops, index, generation, result);
    var handle := EncodeHandle(index, generation);
    DecodeEncoded(index, generation);
    if r.value {
      assert r.ops[index].result[..|result|] == result;
      OpRewritten(ops, m, handle, r.ops[index]);
    }
  }

  lemma FailFollows(ops: Ops, m: OpMap, index: SlotIndex, generation: u32)
    requires CleanOps(ops) && OpsMatch(ops, m) && 1 <= generation < GENERATIONS
    ensures var handle := EncodeHandle(index, generation);
            && CleanOps(FailUpdate(ops, index, generation))
            && OpsMatch(FailUpdate(ops, index, generation), if handle in m && m[handle].Running? then m - {handle} else m)
  {
    var handle := EncodeHandle(index, generation);
    DecodeEncoded(index, generation);
    if handle in m && m[handle].Running? {
      OpRemoved(ops, m, handle);
    }
  }

  /** A result is taken exactly from a done operation, once. */
  lemma TakeFollows(ops: Ops, m: OpMap, handle: u32)
    requires CleanOps(ops) && OpsMatch(ops, m)
    ensures var r := TakeResult(ops, handle);
            && CleanOps(r.ops)
            && (r.value.Some? <==> handle in m && m[handle].Done?)
            && (r.value.None? ==> r.ops == ops)
            && (r.value.Some? ==>
                  && r.value.value.bytes[..r.value.value.length] == m[handle].result
                  && OpsMatch(r.ops, m - {handle}))
  {
    if TakeResult(ops, handle).value.Some? {
      OpRemoved(ops, m, handle);
    }
  }

  lemma DestroyFollows(ops: Ops, m: OpMap, handle: u32)
    requires CleanOps(ops) && OpsMatch(ops, m)
    ensures var r := DestroyOp(ops, handle);
            && CleanOps(r.ops)
            && (r.value <==> handle in m)
            && (!r.value ==> r.ops == ops)
            && OpsMatch(r.ops, m - {handle})
  {
    if DestroyOp(ops, handle).value {
      OpRemoved(ops, m, handle);
    }
  }

  lemma ClearAllFollows(ops: Ops)
    requires CleanOps(ops)
    ensures CleanOps(ClearAll(ops)) && OpsMatch(ClearAll(ops), map[])
  {
  }

  /** Taking, destroying and failing leave the operation's slot free with no byte of
      key or result in it, and the other slot as it was; clearing all frees both. */
  lemma ClearingLeavesNothing(ops: Ops, handle: u32, generation: u32)
    requires CleanOps(ops)
    ensures TakeResult(ops, handle).value.Some? ==> FreedOnly(ops, TakeResult(ops, handle).ops, Index(handle))
    ensures DestroyOp(ops, handle).value ==> FreedOnly(ops, DestroyOp(ops, handle).ops, Index(handle))
    ensures forall i: SlotIndex :: FailUpdate(ops, i, generation) != ops ==> FreedOnly(ops, FailUpdate(ops, i, generation), i)
    ensures FreedOnly([ClearAll(ops)[0], ops[1]], ClearAll(ops), 1) && FreedOnly([ops[0], ClearAll(ops)[1]], ClearAll(ops), 0)
  {
  }

  predicate FreedOnly(ops: Ops, later: Ops, i: SlotIndex) {
    && later[1 - i] == ops[1 - i]
    && later[i].state == 0 && later[i].keyLen == 0 && later[i].resultLen == 0
    && (forall n :: 0 <= n < KEY_BYTES ==> later[i].key[n] == 0)
    && (forall n :: 0 <= n < RESULT_BYTES ==> later[i].result[n] == 0)
    && later[i].generation == ops[i].generation
  }

  // ----- the maps as functions of the tables -----

  function Entry<V>(live: bool, handle: u32, view: V): map<u32, V> {
    if live then map[handle := view] else map[]
  }

  function SlotsOf(k: Keys): map<u32, SlotView> {
    var x, y := k.keyslots[0], k.keyslots[1];
    Entry(x.inUse, EncodeHandle(0, x.generation), ViewSlot(x)) + Entry(y.inUse, EncodeHandle(1, y.generation), ViewSlot(y))
  }

  function LaddersOf(k: Keys): map<u32, LadderView> {
    var x, y := k.klads[0], k.klads[1];
    Entry(x.inUse, EncodeHandle(0, x.generation), ViewKlad(x)) + Entry(y.inUse, EncodeHandle(1, y.generation), ViewKlad(y))
  }

  function MapsOf(k: Keys): KeyMaps {
    KeyMaps(SlotsOf(k), LaddersOf(k))
  }

  function OpMapOf(ops: Ops): OpMap {
    var x, y := ops[0], ops[1];
    Entry(x.state != 0, EncodeHandle(0, x.generation), ViewOp(x)) + Entry(y.state != 0, EncodeHandle(1, y.generation), ViewOp(y))
  }

  lemma SlotsOfMatch(k: Keys)
    requires forall i :: 0 <= i < SLOT_COUNT ==> GoodKeyslot(k.keyslots[i])
    ensures SlotsMatch(k, SlotsOf(k))
  {
    var x, y := k.keyslots[0], k.keyslots[1];
    forall h: u32
      ensures h in SlotsOf(k) <==> LiveKeyslot(k, h)
      ensures h in SlotsOf(k) ==> SlotsOf(k)[h] == ViewSlot(k.keyslots[Index(h)])
    {
      if x.inUse { HandleIs(h, 0, x.generation); }
      if y.inUse { HandleIs(h, 1, y.generation); }
    }
  }

  lemma LaddersOfMatch(k: Keys)
    requires forall i :: 0 <= i < SLOT_COUNT && k.klads[i].inUse ==> 1 <= k.klads[i].generation < GENERATIONS
    ensures LaddersMatch(k, LaddersOf(k))
  {
    var x, y := k.klads[0], k.klads[1];
    forall h: u32
      ensures h in LaddersOf(k) <==> LiveKlad(k, h)
      ensures h in LaddersOf(k) ==> LaddersOf(k)[h] == ViewKlad(k.klads[Index(h)])
    {
      if x.inUse { HandleIs(h, 0, x.generation); }
      if y.inUse { HandleIs(h, 1, y.generation); }
    }
  }

  lemma OpMapOfMatches(ops: Ops)
    requires CleanOps(ops)
    ensures OpsMatch(ops, OpMapOf(ops))
  {
    var x, y := ops[0], ops[1];
    forall h: u32
      ensures h in OpMapOf(ops) <==> LiveOp(ops, h)
      ensures h in OpMapOf(ops) ==> OpMapOf(ops)[h] == ViewOp(ops[Index(h)])
    {
      if x.state != 0 { HandleIs(h, 0, x.generation); }
      if y.state != 0 { HandleIs(h, 1, y.generation); }
    }
  }

  lemma MapsOfRepresent(k: Keys)
    requires KeysInv(k)
    ensures Represents(k, MapsOf(k))
  {
    assert GoodKlad(k, k.klads[0]) && GoodKlad(k, k.klads[1]);
    SlotsOfMatch(k);
    LaddersOfMatch(k);
  }

  lemma SlotsMatchOne(k: Keys, slots: map<u32, SlotView>, others: map<u32, SlotView>)
    requires SlotsMatch(k, slots) && SlotsMatch(k, others)
    ensures slots == others
  {
  }

  lemma LaddersMatchOne(k: Keys, ladders: map<u32, LadderView>, others: map<u32, LadderView>)
    requires LaddersMatch(k, ladders) && LaddersMatch(k, others)
    ensures ladders == others
  {
  }

  /** The tables represent nothing else. */
  lemma RepresentsOne(k: Keys, a: KeyMaps)
    requires KeysInv(k) && Represents(k, a)
    ensures a == MapsOf(k)
  {
    MapsOfRepresent(k);
    SlotsMatchOne(k, a.slots, MapsOf(k).slots);
    LaddersMatchOne(k, a.ladders, MapsOf(k).ladders);
  }

  lemma OpsMatchOne(ops: Ops, m: OpMap)
    requires CleanOps(ops) && OpsMatch(ops, m)
    ensures m == OpMapOf(ops)
  {
    OpMapOfMatches(ops);
  }
}
