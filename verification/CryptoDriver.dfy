/** The cipher tables as the driver holds them: four two-slot arrays updated in
    place, each method the body of one critical section. */
module CryptoDriver {
  import opened Common
  import opened CryptoHandles
  import opened CryptoTables
  import opened CryptoOps

  class BleCryptoState {
    const keyslots: array<Keyslot>
    const klads: array<Klad>
    const hashes: array<CryptoOp>
    const macs: array<CryptoOp>

    ghost predicate Valid() {
      && keyslots.Length == SLOT_COUNT && klads.Length == SLOT_COUNT
      && hashes.Length == SLOT_COUNT && macs.Length == SLOT_COUNT && hashes != macs
    }

    ghost function View(): Keys
      requires Valid()
      reads keyslots, klads
    {
      Keys(keyslots[..], klads[..])
    }

    constructor ()
      ensures Valid() && fresh(keyslots) && fresh(klads) && fresh(hashes) && fresh(macs)
      ensures View() == NewKeys() && hashes[..] == NewTable().ops && macs[..] == NewTable().ops
    {
      keyslots := new Keyslot[SLOT_COUNT](_ => EMPTY_KEYSLOT);
      klads := new Klad[SLOT_COUNT](_ => EMPTY_KLAD);
      hashes := new CryptoOp[SLOT_COUNT](_ => IDLE_OP);
      macs := new CryptoOp[SLOT_COUNT](_ => IDLE_OP);
    }

    method CreateKeyslot(kind: u32) returns (handle: Option<u32>)
      requires Valid()
      modifies keyslots
      ensures KeysAnd(View(), handle) == KeyslotCreate(old(View()), kind)
    {
      if kind != KEYSLOT_MCIPHER && kind != KEYSLOT_HMAC {
        return None;
      }
      var i := 0;
      while i < keyslots.Length && keyslots[i].inUse
        invariant 0 <= i <= keyslots.Length
        invariant forall j :: 0 <= j < i ==> keyslots[j].inUse
      {
        i := i + 1;
      }
      if i == keyslots.Length {
        return None;
      }
      var slot := keyslots[i];
      slot := slot.(generation := NextGeneration(slot.generation));
      slot := slot.(kind := kind, keyLen := 0, inUse := true, key := Zeros(KEY_BYTES));
      keyslots[i] := slot;
      handle := Some(EncodeHandle(i, slot.generation));
    }

    method DestroyKeyslot(handle: u32) returns (ok: bool)
      requires Valid()
      modifies keyslots
      ensures KeysAnd(View(), ok) == KeyslotDestroy(old(View()), handle)
    {
      var decoded := DecodeHandle(handle);
      if decoded.None? {
        return false;
      }
      for i := 0 to klads.Length
        invariant forall j :: 0 <= j < i ==> !(klads[j].inUse && klads[j].keyslot == handle)
      {
        if klads[i].inUse && klads[i].keyslot == handle {
          return false;
        }
      }
      var slot := keyslots[decoded.value.0];
      if !slot.inUse || slot.generation != decoded.value.1 {
        return false;
      }
      keyslots[decoded.value.0] := slot.(key := Zeros(KEY_BYTES), keyLen := 0, inUse := false);
      ok := true;
    }

    method CreateKlad() returns (handle: Option<u32>)
      requires Valid()
      modifies klads
      ensures KeysAnd(View(), handle) == KladCreate(old(View()))
    {
      var i := 0;
      while i < klads.Length && klads[i].inUse
        invariant 0 <= i <= klads.Length
        invariant forall j :: 0 <= j < i ==> klads[j].inUse
      {
        i := i + 1;
      }
      if i == klads.Length {
        return None;
      }
      var generation := NextGeneration(klads[i].generation);
      klads[i] := Klad(generation, UNSET, 0, UNSET, true);
      handle := Some(EncodeHandle(i, generation));
    }

    method DestroyKlad(handle: u32) returns (ok: bool)
      requires Valid()
      modifies klads
      ensures KeysAnd(View(), ok) == KladDestroy(old(View()), handle)
    {
      var decoded := DecodeHandle(handle);
      if decoded.None? {
        return false;
      }
      var klad := klads[decoded.value.0];
      if !klad.inUse || klad.generation != decoded.value.1 || klad.keyslot != 0 {
        return false;
      }
      klads[decoded.value.0] := klad.(inUse := false, destination := UNSET, engine := UNSET);
      ok := true;
    }

    method Attach(handle: u32, destination: u32, keyslot: u32) returns (ok: bool)
      requires Valid()
      modifies klads
      ensures KeysAnd(View(), ok) == KladAttach(old(View()), handle, destination, keyslot)
    {
      var d, dk := DecodeHandle(handle), DecodeHandle(keyslot);
      if d.None? || dk.None? {
        return false;
      }
      var key := keyslots[dk.value.0];
      var klad := klads[d.value.0];
      if !klad.inUse || klad.generation != d.value.1 || klad.keyslot != 0
         || !key.inUse || key.generation != dk.value.1 || !Compatible(destination, key.kind) {
        return false;
      }
      klads[d.value.0] := klad.(destination := destination, keyslot := keyslot);
      ok := true;
    }

    method Detach(handle: u32, destination: u32, keyslot: u32) returns (ok: bool)
      requires Valid()
      modifies klads
      ensures KeysAnd(View(), ok) == KladDetach(old(View()), handle, destination, keyslot)
    {
      var d := DecodeHandle(handle);
      if d.None? {
        return false;
      }
      var klad := klads[d.value.0];
      if !klad.inUse || klad.generation != d.value.1 || klad.destination != destination || klad.keyslot != keyslot {
        return false;
      }
      klads[d.value.0] := klad.(destination := UNSET, keyslot := 0);
      ok := true;
    }

    method SetAttr(handle: u32, engine: u32) returns (ok: bool)
      requires Valid()
      modifies klads
      ensures KeysAnd(View(), ok) == KladSetAttr(old(View()), handle, engine)
    {
      var d := DecodeHandle(handle);
      if (engine != ENGINE_AES && engine != ENGINE_SM3_HMAC) || d.None? {
        return false;
      }
      if !klads[d.value.0].inUse || klads[d.value.0].generation != d.value.1 {
        return false;
      }
      klads[d.value.0] := klads[d.value.0].(engine := engine);
      ok := true;
    }

    method SetClearKey(handle: u32, key: Bytes, hmacType: u32) returns (ok: bool)
      requires Valid()
      modifies keyslots
      ensures KeysAnd(View(), ok) == KladSetClearKey(old(View()), handle, key, hmacType)
      ensures ok ==> var slot := klads[Index(handle)].keyslot;
                     LiveKeyslot(View(), slot) && KeyslotMaterial(View(), slot, keyslots[Index(slot)].kind) == Some(key)
    {
      if |key| == 0 || |key| > KEY_BYTES {
        return false;
      }
      var d := DecodeHandle(handle);
      if d.None? {
        return false;
      }
      var klad := klads[d.value.0];
      var dk := DecodeHandle(klad.keyslot);
      if dk.None? {
        return false;
      }
      var slot := keyslots[dk.value.0];
      if !klad.inUse || klad.generation != d.value.1 || !slot.inUse || slot.generation != dk.value.1
         || !ValidProfile(klad, slot.kind, |key|, hmacType) {
        return false;
      }
      keyslots[dk.value.0] := slot.(key := Pad(key, KEY_BYTES), keyLen := |key|);
      ok := true;
    }

    method DestroyMac(handle: u32) returns (ok: bool)
      requires Valid()
      modifies macs
      ensures OpsAnd(macs[..], ok) == DestroyOp(old(macs[..]), handle)
    {
      var d := DecodeHandle(handle);
      if d.None? || macs[d.value.0].generation != d.value.1 || macs[d.value.0].state == 0 {
        return false;
      }
      macs[d.value.0] := Cleared(macs[d.value.0]);
      ok := true;
    }
  }

  /** Take the first free operation slot for `key`. */
  method AllocateCryptoOp(slots: array<CryptoOp>, key: ShortKey) returns (handle: Option<u32>)
    requires slots.Length == SLOT_COUNT
    modifies slots
    ensures OpsAnd(slots[..], handle) == AllocateOp(old(slots[..]), key)
  {
    var i := 0;
    while i < slots.Length && slots[i].state != 0
      invariant 0 <= i <= slots.Length
      invariant forall j :: 0 <= j < i ==> slots[j].state != 0
    {
      i := i + 1;
    }
    if i == slots.Length {
      return None;
    }
    var slot := slots[i].(generation := NextGeneration(slots[i].generation), state := 1, keyLen := |key|);
    slots[i] := slot.(key := key + slot.key[|key|..]);
    handle := Some(EncodeHandle(i, slot.generation));
  }

  method BeginCryptoUpdate(slots: array<CryptoOp>, handle: u32) returns (begun: Option<Begun>)
    requires slots.Length == SLOT_COUNT
    modifies slots
    ensures OpsAnd(slots[..], begun) == BeginUpdate(old(slots[..]), handle)
  {
    var d := DecodeHandle(handle);
    if d.None? {
      return None;
    }
    var slot := slots[d.value.0];
    if slot.generation != d.value.1 || slot.state != 1 {
      return None;
    }
    slots[d.value.0] := slot.(state := 2);
    begun := Some(Begun(slot.key[..slot.keyLen], d.value.0, d.value.1));
  }

  method CompleteCryptoUpdate(slots: array<CryptoOp>, index: SlotIndex, generation: u32, result: Bytes) returns (ok: bool)
    requires slots.Length == SLOT_COUNT
    modifies slots
    ensures OpsAnd(slots[..], ok) == CompleteUpdate(old(slots[..]), index, generation, result)
  {
    var slot := slots[index];
    if slot.generation != generation || slot.state != 2 || |result| > |slot.result| {
      return false;
    }
    slots[index] := slot.(result := result + slot.result[|result|..], resultLen := |result|, state := 3);
    ok := true;
  }

  method FailCryptoUpdate(slots: array<CryptoOp>, index: SlotIndex, generation: u32)
    requires slots.Length == SLOT_COUNT
    modifies slots
    ensures slots[..] == FailUpdate(old(slots[..]), index, generation)
  {
    if slots[index].generation == generation && slots[index].state == 2 {
      slots[index] := Cleared(slots[index]);
    }
  }

  method TakeCryptoResult(slots: array<CryptoOp>, handle: u32) returns (taken: Option<Result>)
    requires slots.Length == SLOT_COUNT
    modifies slots
    ensures OpsAnd(slots[..], taken) == TakeResult(old(slots[..]), handle)
  {
    var d := DecodeHandle(handle);
    if d.None? {
      return None;
    }
    var slot := slots[d.value.0];
    if slot.generation != d.value.1 || slot.state != 3 {
      return None;
    }
    taken := Some(Result(slot.result, slot.resultLen));
    slots[d.value.0] := Cleared(slot);
  }

  method ClearOps(slots: array<CryptoOp>)
    requires slots.Length == SLOT_COUNT
    modifies slots
    ensures slots[..] == ClearAll(old(slots[..]))
  {
    for i := 0 to slots.Length
      invariant forall j :: 0 <= j < i ==> slots[j] == Cleared(old(slots[j]))
      invariant forall j :: i <= j < slots.Length ==> slots[j] == old(slots[j])
    {
      slots[i] := Cleared(slots[i]);
    }
  }
}
